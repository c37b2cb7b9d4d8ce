# A verified model of a least-loaded pod scheduler

This project models the decision logic of a small external Kubernetes scheduler.
It exists in two variants: a polling loop (`scheduler.py`) and a watch-stream loop
(`scheduler_watch.py`). Both act on pods that
- have no node yet (`spec.node_name` unset or empty),
- are in phase `Pending`,
- name this scheduler exactly in `spec.scheduler_name`.

For each such pod the scheduler picks a node. It keeps the nodes that report a
`Ready` condition with status `True`, or all nodes if none is ready. Among those
it takes the first one with the fewest pods assigned, counting pods of every
namespace and phase. It then posts a `Binding` to the namespace's `bindings` endpoint
(`create_namespaced_binding`), naming the pod in the body's metadata.
A 409 answer is reported as a conflict. Any other API error is reported with its
status. A `ValueError` raised anywhere inside the binding call is treated as
success. Nothing that goes wrong with one pod stops the rest.

Both variants contain the same `choose_node` and the same per-pod `try` block.
They are modelled once and shared. The two `bind_pod` functions send the same
request and both swallow `ValueError`. They differ in how they build the
`V1Binding` body: the watch variant passes `target` to the constructor
(`scheduler_watch.py:26`), while the polling variant builds an empty body first
and assigns `target` afterwards (`scheduler.py:22-23`). The model follows the
watch variant for both (see "Left out"):

- `kube.dfy` (`Kube`): the node, condition, pod and pod-reference records. Fields
  the client may leave unset are `Option`s.
- `selection.dfy` (`Selection`): `choose_node`. It holds the readiness filter
  (`FilterReady`, a nested loop with `break`), the fallback to all nodes, the
  per-node count `LoadOf`, and the least-loaded scan (`PickLeastLoaded`). The
  `math.inf` seed of `choose_node` becomes an unset `Option`. The methods are proved equal
  to the functions `ReadyNodes`, `LeastLoaded` and `Choose`, and the lemmas state
  the properties of those functions.
- `admission.dfy` (`Admission`): the eligibility test and the pending-pod list
  comprehension.
- `binder.dfy` (`Binder`): the binding request, the swallowing of `ValueError`,
  the `except` clauses (`Classify`), and the per-pod try block (`Attempt`). The
  cluster's binding endpoint is a parameter `api`: a function from the request to
  what the client call did (returned, or raised some exception).
- `polling.dfy` (`Polling`): one cycle of the polling loop. `ScheduleBatch` is a
  method over an `array<Pod>` that stands for the cluster's pod list. It takes
  the snapshot, visits the pending pods in list order, and re-reads the array for
  every choice. A successful bind sets that pod's node in the array, so the next
  choice sees the new load. The function `Batch` specifies the cycle.
- `watch.dfy` (`Watch`): the per-event handler of the watch loop. It skips
  events with no object or no `spec`, skips event types other than `ADDED` and
  `MODIFIED`, and acts only on eligible pods.

The printed log lines become returned values: a `Report` per attempted pod and
an `EventResult` per event.

## Model

| member | source | states |
|---|---|---|
| `Selection.IsReady` | py-scheduler-repo.o/scheduler.py:49-53 | a node without a status, or whose conditions list is unset or empty, is never ready |
| `Selection.ReadyNodes` | py-scheduler-repo.o/scheduler.py:47-53 | a node is kept iff it is listed and has a condition of type "Ready" with status "True"; nodes without status or conditions are dropped; the result is no longer than the input |
| `Selection.ReadyNodesCount` | py-scheduler-repo.o/scheduler.py:49-53 | each ready entry appears as often as it is listed and no more (the `break` after the first Ready condition), each non-ready entry not at all |
| `Selection.ReadyNodesAppend` | py-scheduler-repo.o/scheduler.py:48-53 | the filter keeps input order: filtering a concatenation is the concatenation of the filtered parts |
| `Selection.FilterReady` | py-scheduler-repo.o/scheduler.py:47-53 | the nested append-and-break loop builds exactly `ReadyNodes(nodes)` |
| `Selection.Candidates` | py-scheduler-repo.o/scheduler.py:55-57 | a non-empty node list always leaves a non-empty candidate list, and every candidate is a listed node |
| `Selection.CandidatesRule` | py-scheduler-repo.o/scheduler.py:47-57 | when some node is ready the candidates are exactly the ready nodes in list order; when none is, they are all the nodes |
| `Selection.LoadOf` | py-scheduler-repo.o/scheduler.py:65 | a node's count never exceeds the number of pods |
| `Selection.LoadOfZero` | py-scheduler-repo.o/scheduler.py:65 | the count is 0 exactly when no pod, of any namespace or phase, names the node |
| `Selection.LoadOfAppend` | py-scheduler-repo.o/scheduler.py:65 | the count over two pod lists put together is the sum of the two counts |
| `Selection.LoadOfRemove` | py-scheduler-repo.o/scheduler.py:65 | taking one pod out of the list lowers a node's count by exactly that pod's contribution |
| `Selection.LoadOfPermutation` | py-scheduler-repo.o/scheduler.py:65 | the count does not depend on the order in which the pods are listed |
| `Selection.LoadOfUpdate` | py-scheduler-repo.o/scheduler.py:65 | replacing one pod moves one unit of load from its old node to its new one and leaves every other node's count unchanged |
| `Selection.FirstLeastIn` | py-scheduler-repo.o/scheduler.py:61-68 | among the first n candidates the position returned is least loaded, and every earlier candidate is strictly more loaded (replacement only on a strictly smaller count) |
| `Selection.LeastLoaded` | py-scheduler-repo.o/scheduler.py:61-68 | the same over all candidates: the first candidate with the minimum count |
| `Selection.FirstLeastUnique` | py-scheduler-repo.o/scheduler.py:66-68 | ties are broken by input order, so the pick is determined: two positions that are both first-least are equal |
| `Selection.PickLeastLoaded` | py-scheduler-repo.o/scheduler.py:61-68 | the scan with the infinite seed and strict `<` returns the name of the first least-loaded candidate |
| `Selection.Choose` | py-scheduler-repo.o/scheduler.py:42-44 | the choice fails ("No nodes available") exactly when the node list is empty |
| `Selection.ChooseIsListed` | py-scheduler-repo.o/scheduler.py:62-68 | a successful choice names a node of the node list |
| `Selection.ChooseNode` | py-scheduler-repo.o/scheduler.py:40-71 | the imperative `choose_node` (empty check, filter, fallback, scan) returns exactly `Choose(nodes, pods)` |
| `Selection.ChooseContract` | py-scheduler-repo.o/scheduler_watch.py:40-71 | the watch scheduler's copy of `choose_node`: empty list fails; otherwise the candidates are the ready nodes, or all nodes when none is ready, and the pick is a first least-loaded candidate |
| `Admission.IsEligible` | py-scheduler-repo.o/scheduler.py:92-94 | an eligible pod is in phase "Pending", names exactly this scheduler, and has an unset or empty node name; the same test serves the watch handler (scheduler_watch.py:104-106) |
| `Admission.PendingPods` | py-scheduler-repo.o/scheduler.py:90-95 | a pod is pending iff it is listed, has no node (unset or empty), is in phase "Pending" and names this scheduler exactly |
| `Admission.PendingPodsAppend` | py-scheduler-repo.o/scheduler.py:90-95 | the pending list keeps list order |
| `Admission.PendingPodsCount` | py-scheduler-repo.o/scheduler.py:90-95 | each eligible entry is pending as often as it is listed; no ineligible entry is pending |
| `Admission.AssignedNeverEligible` | py-scheduler-repo.o/scheduler_watch.py:104-106 | a pod whose node field names a non-empty node is never eligible, whatever its phase or scheduler |
| `Binder.BindingCallFor` | py-scheduler-repo.o/scheduler_watch.py:17-33 | the request targets kind "Node", api_version "v1", the chosen node's name, with metadata name the pod's name, in the pod's namespace |
| `Binder.BindingCallInjective` | py-scheduler-repo.o/scheduler_watch.py:17-26 | distinct (pod, node) pairs give distinct requests |
| `Binder.BindPod` | py-scheduler-repo.o/scheduler_watch.py:29-37 | `bind_pod` returns normally iff the call returned or raised a `ValueError`; any other exception escapes unchanged |
| `Binder.Classify` | py-scheduler-repo.o/scheduler_watch.py:114-121 | an exception is never reported as a bind; it is a conflict iff it is an API exception with status 409; other API exceptions are reported with their status and reason; anything else is a generic failure |
| `Binder.Attempt` | py-scheduler-repo.o/scheduler_watch.py:108-121 | with no nodes the outcome is the "No nodes available" failure; the pod is reported bound iff a node was chosen and `bind_pod` returned normally, and then to the chosen node; when `bind_pod` lets an exception escape, the outcome is that exception's `Classify` result |
| `Binder.AttemptApiError` | py-scheduler-repo.o/scheduler.py:106-110 | the outcome is an API error with a given status and reason iff a node was chosen and the binding call raised an API exception with that status, other than 409, and that reason |
| `Binder.AttemptOtherFailure` | py-scheduler-repo.o/scheduler.py:111-112 | any other exception from the binding call is reported unchanged as a generic failure |
| `Binder.AttemptConflict` | py-scheduler-repo.o/scheduler.py:106-108 | a conflict is reported exactly when the binding call for the chosen node raised an API exception with status 409 |
| `Binder.AttemptValueErrorBinds` | py-scheduler-repo.o/scheduler.py:26-37 | a `ValueError` from the binding call counts as a successful bind to the chosen node |
| `Binder.AttemptWithoutNodes` | py-scheduler-repo.o/scheduler.py:42-44 | with an empty node list no binding call is made: the outcome does not depend on the endpoint |
| `Polling.Batch` | py-scheduler-repo.o/scheduler.py:100-112 | the cycle keeps the pod list's length and leaves every entry it has not yet visited unchanged |
| `Polling.ScheduleBatch` | py-scheduler-repo.o/scheduler.py:87-112 | the loop over the pod array leaves the array and the reports exactly as `Batch` says, choosing each node against the array as it stands |
| `Polling.BatchAttemptsEachPendingPod` | py-scheduler-repo.o/scheduler.py:90-112 | every pending pod is attempted exactly once, in list order, whatever the earlier attempts produced (a failure on one pod does not stop the rest) |
| `Polling.BatchStepCases` | py-scheduler-repo.o/scheduler.py:100-105 | visiting one entry either leaves the pods alone or binds that pending pod to the node chosen against the current pods |
| `Polling.BatchOnlyAssignsPendingPods` | py-scheduler-repo.o/scheduler.py:100-105 | the cycle changes only pods that were pending, only their node field, and only to the name of a listed node; an assigned pod is never reassigned |
| `Polling.BatchBoundPodsLeavePending` | py-scheduler-repo.o/scheduler.py:90-95 | with non-empty node names, every pod the cycle bound is no longer pending |
| `Polling.BatchBindRaisesLoad` | py-scheduler-repo.o/scheduler.py:60-65 | because the pod list is re-read for each choice, after a bind to node n the next choice counts one more pod on n |
| `Polling.BatchBoundStep` | py-scheduler-repo.o/scheduler.py:102-105 | a successful bind sets the visited pod's node and appends a "bound" report for it |
| `Polling.BatchUnboundStep` | py-scheduler-repo.o/scheduler.py:100-112 | visiting an entry that is not pending, or whose attempt ends in a conflict, an API error or a failure, leaves the pod list unchanged |
| `Polling.TwoBoundSteps` | py-scheduler-repo.o/scheduler.py:100-105 | two pending pods whose binds succeed, to n1 and then to n2 (the second chosen against the list holding the first bind), end with both node fields set and two bound reports in order |
| `Polling.TiedChoices` | py-scheduler-repo.o/scheduler.py:61-68 | two ready empty nodes A, B: A is chosen; once A carries a pod, B is chosen |
| `Polling.SpreadOverTiedNodes` | py-scheduler-repo.o/scheduler.py:100-105 | two pending pods over two ready empty nodes are bound to A and then to B |
| `Watch.IsActionableKind` | py-scheduler-repo.o/scheduler_watch.py:100 | ADDED and MODIFIED events are acted on; DELETED, BOOKMARK and ERROR events are not |
| `Watch.HandleEvent` | py-scheduler-repo.o/scheduler_watch.py:92-121 | an event is malformed iff its object is missing or has no `spec`; a bind is attempted iff the event carries a pod, its type is ADDED or MODIFIED, and the pod is eligible, and its outcome is then the per-pod `Attempt`; a pod event of another type is reported as ignored, and an ADDED or MODIFIED event for an ineligible pod as not pending |
| `Watch.OtherKindsNeverBind` | py-scheduler-repo.o/scheduler_watch.py:100-101 | events of any other type (DELETED, ...) never lead to a bind |
| `Watch.WatchAgreesWithPolling` | py-scheduler-repo.o/scheduler_watch.py:104-121 | for a pending pod, the watch handler and the polling cycle reach the same outcome against the same pod list |

## Left out

- Client loading (`load_client`, kubeconfig and in-cluster configuration): this is credential I/O done by the client library.
- The list calls themselves (`list_node`, `list_pod_for_all_namespaces`) are inputs here, and their failures are not modelled. The cycle's own pod listing (`scheduler.py:87`) runs under the outer `except Exception` of the polling loop, which would skip the whole cycle. The two list calls inside `choose_node` (`scheduler.py:42,60`, `scheduler_watch.py:42,60`) run inside the per-pod `try` (`scheduler.py:101`, `scheduler_watch.py:108`). Their failures would be reported for that one pod, as an API error or a generic failure, and the loop would go on to the next pod. Those per-pod outcomes are not modelled.
- A pod whose `spec` or `status` object is itself `None` would make the eligibility test raise `AttributeError`. In polling mode that aborts the cycle; in watch mode it restarts the stream. The model assumes both objects are present. Only the fields inside them may be unset.
- The watch subscription, its 60-second request timeout, the 5-second reconnect sleep, the polling interval and the endless outer loops are left out. They are timing and liveness, not sequential contracts. One cycle and one event are modelled.
- Logging output (`print`) is replaced by the returned `Report` and `EventResult` values.
- The modelled pod list records the bind whenever `bind_pod` returns normally, including when it swallowed a `ValueError`. The program never checks that the cluster committed the binding in that case; the comments in the code (`scheduler.py:27,35-36`, `scheduler_watch.py:28,36`) say it does, and the model follows them. If the cluster did not commit it, the next re-read pod list would not hold the pod's node, and `Polling.BatchBindRaisesLoad` would not describe the cluster.
- The binding endpoint is a fixed function of the request. No other scheduler acts concurrently. A 409 therefore leaves the modelled pod list unchanged, and the node the other party chose is not visible.
- Pods are identified by their position in the pod list. The cluster addresses them by (namespace, name), which is unique in a cluster.
- `Binder.BindPod` models the watch variant's `bind_pod` (`scheduler_watch.py:15-37`) and stands for the polling variant's too. The polling variant calls `client.V1Binding()` with no arguments (`scheduler.py:22`), before its `try`. If that constructor rejects a missing `target`, the exception would escape `bind_pod` before any binding call, and the pod would be reported as a generic failure. The model assumes the constructor does not raise there; that behaviour lies in the client library.
