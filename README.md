# Provider test harness: snapshots, teardown and convergence loops

This project models the engine of the atomicapp system-test harness
(`tests/system/base.py`). It covers:

- **Line parsers.** One line of `kubectl get pods|services|rc` (or its
  `oc` equivalent) becomes a record by Python's `str.split()`. One line of
  `docker ps` becomes a record by `re.split(' {2,}')`.
- **Snapshot builders** (`_get_pods`, `_get_services`, `_get_rcs`,
  `_get_containers`). Each drops the header line and files every record in
  an `OrderedDict` under its key field.
- **Baseline and teardown** for the Docker, Kubernetes and OpenShift
  suites. `get_initial_state` saves the snapshots. `tearDown` deletes
  every object listed now but absent from the baseline: pods, then
  services, then rcs. It then waits up to 360 seconds for each deleted
  object to disappear, in the same order.
- **Convergence loops** `assertPod`, `assertService` and `assertRc`.
  Each re-runs its listing while the elapsed time is at most `timeout`,
  and raises `AssertionError` when time runs out.
- **Docker assertions** `assertContainerRunning` and
  `assertContainerNotRunning`.

Modules:

| module | what it holds |
|---|---|
| `Common` | errors, `Result`, `Outcome`, `Option` |
| `Split` | `str.split()` and `re.split(' {2,}')`, with round-trip lemmas |
| `Records` | the five record types' parsers |
| `Snapshot` | the ordered map and the snapshot loop |
| `Poll` | the listing oracle, the clock and the retry loops |
| `Reap` | the teardown diff and its effect log |
| `Cluster` | the Kubernetes/OpenShift suite as a class |
| `Docker` | the Docker suite as a class |

The environment is passed in as data, not performed:

- **A listing command** is an oracle value `Fetch`: either `Failed` (a
  non-zero exit) or `Output(lines)`.
- **A polling call** sees an `Env`. It holds the elapsed-time readings the
  loop condition takes, and what each listing returns. `Covers` requires
  the readings to be non-negative and non-decreasing, and to pass the
  timeout eventually.
- **Teardown's deletions and waits** are appended to an effect log
  (`effects`, or `removed` for Docker). They are not executed.
- **Each absence check** of teardown sees its own world `waits(t)`.

Kubernetes and OpenShift list the same resources. OpenShift runs `oc`
where Kubernetes runs `kubectl`, and wraps each whole command in
`docker exec -i origin` (its `os_exec`). The only behavioural difference is in
`assertPod` (the `Flavor` type). Kubernetes parses each line before it
looks at `exists`, so a malformed line raises even while waiting for
absence. OpenShift skips the line first.

## Model

| member | source | states |
|---|---|---|
| Split.Tokens | tests/system/base.py:380 | every piece `str.split()` yields is a non-empty run without whitespace |
| Split.TokensSkipSpace | tests/system/base.py:380 | leading whitespace does not change the split |
| Split.TokensRoundTrip | tests/system/base.py:380 | tokens printed with a non-empty whitespace run of its own width between each pair of neighbours (a column-aligned row), with any leading and trailing whitespace, split back to exactly those tokens |
| Split.SplitGaps | tests/system/base.py:159 | `re.split(' {2,}')` yields at least one piece, and no piece contains a run of two spaces |
| Split.SplitGapsWhole | tests/system/base.py:159 | a string without a two-space run is returned as a single piece |
| Split.SplitGapsStep | tests/system/base.py:159 | a piece, a separator of two or more spaces and a remainder split into that piece followed by the remainder's pieces |
| Split.SplitGapsLeadingPad | tests/system/base.py:159 | padding of two or more spaces at the start produces an empty first piece |
| Split.SplitGapsLayout | tests/system/base.py:159 | cells laid out with separators of at least two spaces split back to exactly those cells |
| Records.ParsePod | tests/system/base.py:379-388 | Ok exactly when the line has 5 tokens, with the fields being the tokens in declared order; otherwise an unpack error carrying the token count, and no record |
| Records.ParseService | tests/system/base.py:360-369 | the same as for pods, with the fields name, labels, selector, ips, ports |
| Records.ParseRc | tests/system/base.py:398-407 | the same as for pods, with the fields controller, container, image, selector, replicas |
| Records.ParseContainer | tests/system/base.py:158-171 | Ok exactly when the split yields 6 or 7 pieces; 7 pieces map in order; with 6, `''` is inserted as ports before names; any other count is an unpack error against 7 |
| Records.ContainerHasNamesNotName | tests/system/base.py:139 | a container record answers for "names" with its names, and raises KeyError for "name" |
| Records.PodRoundTrip | tests/system/base.py:379-388 | a pod row printed column-aligned, with each gap between columns its own non-empty run of whitespace and any padding at either end, parses back to that pod |
| Records.ServiceRoundTrip | tests/system/base.py:360-369 | a service row printed column-aligned, with each gap its own non-empty run of whitespace and any padding at either end, parses back to that service |
| Records.RcRoundTrip | tests/system/base.py:398-407 | an rc row printed column-aligned, with each gap its own non-empty run of whitespace and any padding at either end, parses back to that rc |
| Records.Columns | tests/system/base.py:160-161 | a container with blank ports prints 6 columns, and any other container prints 7 |
| Records.ContainerRoundTrip | tests/system/base.py:158-171 | a container rendered with any column widths parses back to itself, with or without a blank ports column |
| Records.BlankPortsRestored | tests/system/base.py:160-161 | inserting `''` into the 6 printed columns gives back the 7 fields |
| Records.ContainerLeadingPadShifts | tests/system/base.py:159-162 | a 6-column row with leading padding is read as 7 pieces: the id reads as `''` and every column shifts one place |
| Snapshot.OrderedMap.Put | tests/system/base.py:376 | `d[k] = v` keeps the map valid; a new key goes last; an existing key keeps its place and takes the new value |
| Snapshot.BuildSnapshot | tests/system/base.py:371-377 | the loop of a `_get_*` helper computes the snapshot its specification function describes |
| Snapshot.ParseRowsErrSticky | tests/system/base.py:374-375 | once a prefix of the rows fails to parse, the whole listing fails with the same error |
| Snapshot.ParseRowsSpec | tests/system/base.py:374-375 | parsing succeeds exactly when every row parses, giving one record per row in order; otherwise it fails with the first bad row's error |
| Snapshot.FromRecordsKeys | tests/system/base.py:373-377 | the map lists each key once, and its keys are exactly the key fields of the inserted records |
| Snapshot.FromRecordsFiled | tests/system/base.py:376 | every record is filed under its own key |
| Snapshot.FromRecordsLastWins | tests/system/base.py:376 | a record that no later record shares a key with is the one kept under its key |
| Snapshot.Collect | tests/system/base.py:371-377 | the snapshot a `_get_*` helper returns for a listing; a listing with nothing after its header gives an empty snapshot; its meaning is stated by the Collect* lemmas below |
| Snapshot.CollectOutcome | tests/system/base.py:371-377 | the header is ignored; the snapshot succeeds exactly when every later line parses, and otherwise fails with the first bad line's error |
| Snapshot.CollectRecords | tests/system/base.py:374-376 | on success, the records are the parses of lines 2..n in order |
| Snapshot.CollectValid | tests/system/base.py:371-377 | a successful snapshot lists each key once |
| Snapshot.CollectKeys | tests/system/base.py:371-377 | on success, the snapshot's keys are exactly the key fields of lines 2..n |
| Snapshot.CollectFiled | tests/system/base.py:376 | on success, each record is filed under its own key |
| Snapshot.CollectLastWins | tests/system/base.py:376 | on success, the last line with a given key wins |
| Poll.ScanPods | tests/system/base.py:274-285 | the line loop of assertPod; the only exception it raises is the ValueError of a line that does not unpack into five columns; Kubernetes parses before testing `exists`, OpenShift (tests/system/base.py:513-524) skips first; when it is satisfied, raises or retries is stated by ScanPodsNeverSatisfiedWhenAbsent, OpenShiftAbsentScanRetries and KubernetesAbsentScanParses (absence) and PresentScanSpec, PresentScanRaises and PresentScanRetries (presence) |
| Poll.Step | tests/system/base.py:268-285 | one pass of the `while` body: a failed listing is caught (never raises), satisfies a wait for absence and is retried by a wait for presence; service and rc listings are never parsed, so only a malformed pod line raises |
| Poll.AttemptsFrom | tests/system/base.py:267 | the first reading past the timeout: every reading before it is within the timeout |
| Poll.AttemptsExactly | tests/system/base.py:267 | attempt j runs exactly when the reading before it is at most the timeout, equality included |
| Poll.NegativeTimeoutNoFetch | tests/system/base.py:267 | a negative timeout runs no listing, and the loop ends in the timeout failure |
| Poll.PollFrom | tests/system/base.py:267-292 | the `while` loop from attempt i on; its meaning is stated by PollFromTimesOut, PollFromSatisfied, PollFromRaises and PollRaisesOnlyUnpack |
| Poll.RetriedShift | tests/system/base.py:267-285 | an attempt that went round again can be skipped when asking whether every attempt up to j went round again |
| Poll.PollFromTimesOut | tests/system/base.py:267-292 | from attempt i on, the loop ends with the timeout exactly when every permitted attempt went round again |
| Poll.PollFromSatisfied | tests/system/base.py:267-285 | from attempt i on, the loop returns True exactly when some permitted attempt is satisfied after only retries |
| Poll.PollFromRaises | tests/system/base.py:267-285 | from attempt i on, a raise is the error of a permitted attempt reached after only retries |
| Poll.PollRaisesOnlyUnpack | tests/system/base.py:267-292 | the loop raises nothing but the ValueError of a malformed pod line: failed listings are caught and service and rc listings are never parsed |
| Poll.PollFromSpec | tests/system/base.py:267-285 | from any attempt on, the loop is satisfied, times out or raises exactly as the first non-retrying permitted attempt decides |
| Poll.PollSpec | tests/system/base.py:267-292 | satisfied exactly when some permitted attempt is satisfied after only retries; timed out exactly when every permitted attempt retried; a raise is the first non-retrying attempt's error |
| Poll.ImmediateConvergence | tests/system/base.py:267-285 | a satisfying first listing, read within the timeout, passes |
| Poll.ScanPodsNeverSatisfiedWhenAbsent | tests/system/base.py:274-277 | while waiting for absence, no line satisfies assertPod |
| Poll.AbsenceOnlyOnFailedFetch | tests/system/base.py:268-277 | with exists=False, an attempt is satisfied exactly when its listing fails; a successful listing never satisfies it |
| Poll.OpenShiftAbsentScanRetries | tests/system/base.py:513-515 | OpenShift's assertPod, waiting for absence, never parses a line and always retries |
| Poll.KubernetesAbsentScanParses | tests/system/base.py:274-277 | Kubernetes' assertPod, waiting for absence, retries exactly when every line parses, and otherwise raises the first malformed line's error |
| Poll.PresentScanFlavorFree | tests/system/base.py:513-524 | waiting for presence, the Kubernetes and OpenShift scans agree |
| Poll.MatchAtShift | tests/system/base.py:274-285 | dropping a parsed first line shifts the position of a match by one |
| Poll.PresentScanSpec | tests/system/base.py:274-285 | waiting for presence, a listing satisfies assertPod exactly when some line is a pod whose status matches (any status when none is given) and every line before it parses |
| Poll.AbsenceSpec | tests/system/base.py:303-318 | assertService, assertRc and OpenShift's assertPod with exists=False pass exactly when some permitted listing fails, and never raise anything but the timeout |
| Poll.FirstFailed | tests/system/base.py:268-273 | the first failed listing among the first n, with every earlier listing successful |
| Poll.KubernetesAbsentStep | tests/system/base.py:268-277 | one attempt of Kubernetes' assertPod(exists=False): satisfied exactly by a failed listing, retried exactly when every line of the listing parses, raising otherwise |
| Poll.KubernetesAbsentRetried | tests/system/base.py:258-292 | Kubernetes' assertPod(exists=False) retries every attempt before the j-th exactly when each of those listings succeeded and every line of it parsed |
| Poll.KubernetesAbsencePasses | tests/system/base.py:258-292 | Kubernetes' assertPod(exists=False) returns True exactly when some permitted listing fails after only listings that parsed |
| Poll.KubernetesAbsenceTimesOut | tests/system/base.py:258-292 | Kubernetes' assertPod(exists=False) returns False at the deadline exactly when every permitted listing succeeded and parsed |
| Poll.FirstUnparsed | tests/system/base.py:267-277 | when not every one of the first n listings parsed, a listing among them that failed or has a malformed line, with every listing before it parsed |
| Poll.FirstStopCases | tests/system/base.py:267-277 | among the first n listings, one is malformed after only parsed listings exactly when none fails after only parsed listings and not all of them parsed |
| Poll.KubernetesAbsenceRaises | tests/system/base.py:258-292 | Kubernetes' assertPod(exists=False) raises exactly when some permitted listing has a malformed line after only listings that parsed |
| Poll.KubernetesPodAbsenceSpec | tests/system/base.py:258-292 | Kubernetes' assertPod with exists=False returns True exactly when some permitted listing fails after only listings whose every line parsed; times out exactly when every permitted listing parsed; raises exactly when some permitted listing has a malformed line after only listings that parsed |
| Poll.NoMatchShift | tests/system/base.py:274-285 | dropping a first line that is a pod without a matching status shifts the "no match yet" prefix by one |
| Poll.PresentScanRaises | tests/system/base.py:274-285 | waiting for presence, a scan raises exactly when some line does not unpack into five columns and every line before it is a pod whose status does not match; the error is that line's (OpenShift's scan agrees, by PresentScanFlavorFree) |
| Poll.PresentScanRetries | tests/system/base.py:274-285 | waiting for presence, a scan goes round again exactly when every line is a pod and none has a matching status |
| Poll.PresentStep | tests/system/base.py:268-285 | one attempt of assertPod(exists=True), for either provider: satisfied exactly when the listing shows the pod with a matching status, retried exactly when the listing failed or shows no match, raising exactly when a malformed line comes before any match |
| Poll.PodPresenceSpec | tests/system/base.py:258-292 | assertPod(exists=True), for either provider (OpenShift at tests/system/base.py:498-531): returns True exactly when some permitted listing shows the pod after only failed or non-matching ones; times out exactly when every permitted listing failed or showed no match; raises only on a malformed line before any match, after only failed or non-matching listings |
| Poll.ListingPresenceSpec | tests/system/base.py:303-313 | assertService and assertRc with exists=True pass exactly when some permitted listing succeeds with a line after the header, and never raise anything but the timeout |
| Reap.Delta | tests/system/base.py:201-202 | `[k for k in current if k not in baseline]`, never longer than the snapshot; its meaning is stated by DeltaSpec, DeltaNoDuplicates, DeltaCovered, DeltaPrefix and DeltaNext |
| Reap.DeltaSpec | tests/system/base.py:201-202 | a key is deleted exactly when it is in the current snapshot and not in the baseline |
| Reap.DeltaNoDuplicates | tests/system/base.py:201-202 | the delta repeats no key that the snapshot does not repeat |
| Reap.DeltaCovered | tests/system/base.py:201-202 | a snapshot covered by its baseline has an empty delta |
| Reap.DeltaPrefix | tests/system/base.py:201-202 | the delta of a prefix of the snapshot is a prefix of its delta |
| Reap.DeltaNext | tests/system/base.py:201-203 | walking the snapshot, a new key is the next element of the delta |
| Reap.TagMember | tests/system/base.py:199-213 | a target is in a kind's tagged keys exactly when it has that kind and its key is listed |
| Reap.Plan | tests/system/base.py:199-213 | the objects teardown deletes, pods then services then rcs; its meaning is stated by PlanMember, PlanAt and PlanOrdered |
| Reap.PlanMember | tests/system/base.py:199-213 | teardown deletes exactly the objects that are listed now under their kind and absent from that kind's baseline |
| Reap.PlanAt | tests/system/base.py:199-213 | each position of the plan comes from the pod delta, then the service delta, then the rc delta |
| Reap.PlanOrdered | tests/system/base.py:199-213 | each object is deleted at most once, pods before services before rcs |
| Reap.TagSnoc | tests/system/base.py:201-203 | tagging one more key appends one target |
| Reap.TagPrefix | tests/system/base.py:201-203 | the tags of a prefix are a prefix of the tags |
| Reap.WalkStep | tests/system/base.py:201-203 | one step of a cleanup loop extends the deleted prefix by the key exactly when it is new |
| Reap.EffectsConcat | tests/system/base.py:199-225 | deletions and waits of concatenated plans are the concatenations |
| Reap.EffectsSnoc | tests/system/base.py:199-225 | one more planned object adds one delete and one wait |
| Reap.OutcomesConcat | tests/system/base.py:215-225 | the outcomes of concatenated object lists are the concatenation |
| Reap.FirstFail | tests/system/base.py:215-225 | a run of checks starts at most as many checks as there are |
| Reap.FirstFailSpec | tests/system/base.py:215-225 | a run passes only after every check has passed; a failed run ends at the first failing check, with its error |
| Reap.FirstFailConcat | tests/system/base.py:215-225 | running the checks of p + q runs p's and, only if they all pass, q's |
| Reap.CheckedConcat | tests/system/base.py:215-225 | checking p + q is checking p and then, if it passed, checking q |
| Reap.CheckedSnoc | tests/system/base.py:215-225 | checking one more object after p waits for it only if p passed |
| Reap.AwaitRunNext | tests/system/base.py:215-217 | one more key of an absence loop is skipped when old or after a failure, and otherwise waited for |
| Reap.AwaitRunSticky | tests/system/base.py:215-217 | once a check of the loop raises, later keys change nothing |
| Reap.AwaitRunSpec | tests/system/base.py:215-225 | a kind's absence loop checks exactly its new objects, in snapshot order, until the first check that raises |
| Reap.ReapChain | tests/system/base.py:215-225 | the three absence loops, run in turn, check the whole plan in order |
| Reap.ReapPlanSpec | tests/system/base.py:199-225 | every deletion precedes every wait; a pass waited for every planned object, each of whose checks passed; a failure stops at the first raising check, after only passing ones |
| Reap.NothingNewNothingDone | tests/system/base.py:199-225 | with an empty delta, nothing is deleted or awaited, and teardown passes |
| Reap.ReapDeletesPlanned | tests/system/base.py:199-213 | exactly the planned objects are deleted |
| Reap.ReapAwaitsPlanned | tests/system/base.py:215-225 | only planned (that is, deleted) objects are awaited |
| Cluster.TearDownSpec | tests/system/base.py:193-227 | the outcome and effect log of tearDown; its meaning is stated by TearDownListingFails, TearDownDeletesNew, TearDownPassMeansGone, TearDownFailStops and TearDownNothingNew |
| Cluster.TearDownListingFails | tests/system/base.py:195-197 | a listing that fails or does not parse ends teardown with its error before anything is deleted, in the order pods, services, rcs |
| Cluster.TearDownDeletesNew | tests/system/base.py:199-213 | all deletions come first, each object once, pods then services then rcs, and an object is deleted exactly when it is new |
| Cluster.CheckAbsentSpec | tests/system/base.py:215-225 | a deleted object's check passes only after a listing of it failed within 360 s; for services, rcs and OpenShift pods such a failure also suffices |
| Cluster.TearDownPassMeansGone | tests/system/base.py:215-225 | a passing teardown deleted and then awaited every new object, and saw a listing of each fail in time |
| Cluster.TearDownFailStops | tests/system/base.py:215-225 | a failing teardown deleted every new object and stopped at the first raising check, after only passing ones |
| Cluster.TearDownNothingNew | tests/system/base.py:193-227 | when nothing is new, teardown deletes nothing, waits for nothing and passes |
| Cluster.ClusterSuite.GetPods | tests/system/base.py:371-377 | a failed `get pods` raises the command's error; otherwise the result is the pod snapshot of the output |
| Cluster.ClusterSuite.GetServices | tests/system/base.py:352-358 | a failed `get services` raises the command's error; otherwise the result is the service snapshot |
| Cluster.ClusterSuite.GetRcs | tests/system/base.py:390-396 | a failed `get rc` raises the command's error; otherwise the result is the rc snapshot |
| Cluster.ClusterSuite.GetInitialState | tests/system/base.py:346-350 | services, then pods, then rcs are saved; a failing snapshot raises, leaves the later baselines unchanged and keeps the earlier ones replaced; the baselines stay valid |
| Cluster.ClusterSuite.AssertPod | tests/system/base.py:258-292 | the loop computes the pod assertion, including both timeout messages; OpenShift's variant is tests/system/base.py:498-531 |
| Cluster.ClusterSuite.AwaitListing | tests/system/base.py:294-318 | the loop shared by assertService and assertRc computes the listing assertion |
| Cluster.ClusterSuite.AssertService | tests/system/base.py:294-318 | assertService, with "Service" messages |
| Cluster.ClusterSuite.AssertRc | tests/system/base.py:320-344 | assertRc, with "RC" messages |
| Cluster.ClusterSuite.CheckGone | tests/system/base.py:215-225 | the absence check for one deleted object, by its kind, with timeout 360 |
| Cluster.ClusterSuite.DeleteNew | tests/system/base.py:201-203 | a cleanup loop appends one delete per new key, in snapshot order, and nothing else |
| Cluster.ClusterSuite.AwaitGone | tests/system/base.py:215-217 | an absence loop logs a wait per new key and stops at the first raising check |
| Cluster.ClusterSuite.TearDown | tests/system/base.py:193-227 | tearDown's outcome and effect log are those of the teardown specification; the OpenShift variant is tests/system/base.py:434-468 |
| Cluster.ClusterSuite.ReapNew | tests/system/base.py:199-225 | the deletions of the plan, followed by its absence checks |
| Cluster.ClusterSuite.DeleteAll | tests/system/base.py:199-213 | the three cleanup loops log the deletions of the whole plan |
| Cluster.ClusterSuite.AwaitAll | tests/system/base.py:215-225 | the three absence loops check the whole plan in order |
| Docker.ContainerSnapshotValid | tests/system/base.py:146-156 | a successful container snapshot lists each id once |
| Docker.Removals | tests/system/base.py:91-98 | the ids tearDown removes, or the listing's error; its meaning is stated by RemovalsSpec and RemovalsOfBaseline |
| Docker.RemovalsSpec | tests/system/base.py:91-98 | teardown removes exactly the containers listed now and absent from the baseline, each once |
| Docker.RemovalsOfBaseline | tests/system/base.py:91-98 | tearing down against the listing the baseline came from removes nothing |
| Docker.NotRunningFrom | tests/system/base.py:138-141 | the loop of assertContainerNotRunning from item i on, reading a given field; it raises nothing but the KeyError of that field or "Container: <name> is running" |
| Docker.NotRunningAsWrittenRaises | tests/system/base.py:136-141 | reading "name", the loop passes on an empty listing and raises KeyError on any other |
| Docker.NotRunningSpec | tests/system/base.py:136-141 | reading "names", the loop passes exactly when no listed container has the name, and otherwise reports it running |
| Docker.NoneNamed | tests/system/base.py:131-132 | no listed key has the name exactly when no entry of the map has it |
| Docker.NotRunningCounterexample | tests/system/base.py:139 | one container "web", asked about "db": the as-written loop raises KeyError where the corrected loop passes |
| Docker.DockerSuite.GetContainers | tests/system/base.py:146-156 | `docker ps` (or `docker ps -a`) failing raises its error; otherwise the snapshot of its output, which is valid |
| Docker.DockerSuite.GetInitialState | tests/system/base.py:143-144 | the baseline becomes the snapshot of `docker ps -a`; a failure raises and leaves it unchanged |
| Docker.DockerSuite.TearDown | tests/system/base.py:91-98 | a failed listing raises and removes nothing; otherwise the ids removed are the snapshot's ids absent from the baseline, in the snapshot's key order |
| Docker.DockerSuite.RemoveNew | tests/system/base.py:94-98 | the loop removes each given id not in the baseline, in the order given, and nothing else |
| Docker.DockerSuite.AssertContainerRunning | tests/system/base.py:129-134 | passes exactly when some listed container's names equal the name; otherwise raises "Container: <name> not running."; a failed listing raises its error |
| Docker.DockerSuite.ScanNotRunning | tests/system/base.py:138-141 | the loop computes the not-running scan for the field it reads |
| Docker.DockerSuite.AssertContainerNotRunningAsWritten | tests/system/base.py:136-141 | as written: an empty listing passes, and any other raises KeyError('name') |
| Docker.DockerSuite.AssertContainerNotRunning | tests/system/base.py:136-141 | corrected: raises "Container: <name> is running" exactly when some listed container has the name, and passes otherwise |

## Left out

- Running processes. `subprocess.check_output` on `kubectl`, `oc`,
  `docker` and `atomicapp` becomes oracle values (`Fetch`). The exact
  command lines of the polling assertions (`kubectl get pod <name>`, and so
  on) are not kept, because only the listing's result matters.
- Clock readings that go back. `Covers` (used by `Poll.AttemptsExactly`,
  `Poll.NegativeTimeoutNoFetch` and the loop lemmas) assumes the elapsed
  times the loop reads are non-negative and never decrease. The source
  takes them from `datetime.datetime.now()`, a naive local wall clock that
  can step back (a DST change, an NTP correction); such runs are not
  modelled.
- The wall clock and `time.sleep(10)`. The clock is given as a sequence
  of readings, and the sleeps change nothing observable. Elapsed time is
  fractional seconds in Python; the model uses integers, which keeps the
  `<= timeout` comparison exact.
- `os_exec`. It only prefixes the command. The prefix survives only in
  the error text of a failed snapshot listing (`Cluster.Command`).
- Provider setup and shutdown: `setUpClass`, `tearDownClass`,
  `openshift.wait()`, and OpenShift's `setUp` that selects the project.
  These call provider modules that are not part of this model.
- Logging configuration, `print` of commands and outputs, the temporary
  answers file, and `nulecule_lib`. These are I/O glue.
- `deploy` and `undeploy`. They only run an external CLI.
- `splitlines()`. A fetch carries its output already split into lines.
  `Body` drops the header line.
- Python identity checks. `exists is False` is modelled as a `bool`
  parameter; a non-bool `exists` is not represented.
- Failed snapshot listings. When a `_get_*` listing command exits
  non-zero, the code raises (CalledProcessError) rather than returning
  an empty mapping. The model follows the code (`CommandFailed`).
- Cluster.ClusterSuite.DeleteNew: a delete command that itself fails
  (raising CalledProcessError and ending teardown) is not modelled. Every
  deletion is logged and succeeds.
- Docker.DockerSuite.RemoveNew: a `docker rm -f` that fails is not
  modelled, for the same reason.
- Whitespace in `str.split()` is the six ASCII whitespace characters of
  Python 2 byte strings. Unicode whitespace is not modelled.

## Findings

| source | as written | input that shows it | evidently intended | confidence | as-written member | corrected member |
|---|---|---|---|---|---|---|
| tests/system/base.py:139 | `assertContainerNotRunning` reads `container['name']`, but the container record built at tests/system/base.py:163-171 has only `names` | `docker ps` lists one container named "web", and the call asks about "db": a KeyError is raised instead of returning True | read `container['names']`, as `assertContainerRunning` does at tests/system/base.py:132 | not executed | Docker.DockerSuite.AssertContainerNotRunningAsWritten | Docker.DockerSuite.AssertContainerNotRunning |
