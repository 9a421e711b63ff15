# figure-app Kubernetes helpers, modelled in Dafny

figure-app is a small command-line tool. It finds the Deployments behind a set of Pods and forces
them to roll out again. The forced rollout stamps a fresh `force/deploy` annotation on each
Deployment's pod template, and Kubernetes then replaces the Pods gracefully. This project models the
library underneath the tool:

- `pkg/k8s/k8s.go`:
  - Pod → ReplicaSet → Deployment resolution through owner references;
  - listing with a namespace choice and a name filter;
  - the two "kickers" that patch the annotation onto Deployments or Pods;
  - create-or-fetch of a Deployment or a Pod;
  - the timeout policy.
- `pkg/util/util.go`: `FirstOrBlank` and `DigitCount`.

The cluster API server is modelled as `Cluster.Store`. It holds the objects of the three kinds
keyed by (kind, namespace, name), plus the list order. A request can fail at any point: a fixed
table `faults` maps requests to the error they fail with. Every property below holds for every
fault table. The limits of that table are listed under "## Left out".

| file | module | contents |
|---|---|---|
| `wrappers.dfy` | `Wrappers` | `Option`, `Result` |
| `strings.dfy` | `Strings` | Go's `strings.Contains`, `strings.TrimSpace`, `strconv.Itoa` (and `Atoi` as its partner) |
| `util.dfy` | `Util` | `FirstOrBlank`, `DigitCount` |
| `cluster.dfy` | `Cluster` | objects, references, errors, patches, the store and its request semantics |
| `k8s.dfy` | `K8s` | the operations of `pkg/k8s/k8s.go` and the functions that specify them |
| `k8s_lemmas.dfy` | `K8sLemmas` | properties of those operations |

## Model

| member | source | states |
|---|---|---|
| `Util.DigitCount` | pkg/util/util.go:9-11 | the result is the number of decimal digits of `n`, plus one for the minus sign when `n < 0`: `10^(r-1) <= n < 10^r` for positive `n`, 1 for zero |
| `Util.FirstOrBlank` | pkg/util/util.go:14-21 | the result is the first argument when there is one and it is not all white space; otherwise it is the empty string |
| `Util.DigitCountExamples` | pkg/util/util_test.go:9-63 | digit counts of 1, 12, 99, 102, 215, 999, 1000 and 10030, plus 0 and -7 |
| `Util.FirstOrBlankExamples` | pkg/util/util_test.go:65-113 | first non-blank argument kept; no arguments, "" and white-space-only first arguments give "" |
| `Strings.ContainsIffOccurs` | pkg/k8s/k8s.go:211 | `Contains(s, sub)` holds exactly when `sub` occurs at some index of `s` |
| `Strings.ContainsSuffix` | pkg/k8s/k8s.go:54 | a string ending in `sub` contains `sub` |
| `Strings.TrimSpaceBlank` | pkg/util/util.go:16 | trimming white space leaves nothing exactly when every character is white space |
| `Strings.DigitsLength` | pkg/util/util.go:10 | the decimal digits of `n` are digits, at least one, and their count `k` satisfies `10^(k-1) <= n < 10^k` for `n >= 1` |
| `Strings.ItoaRoundTrip` | pkg/util/util.go:10 | parsing back the decimal form of any integer gives that integer |
| `Cluster.ListedExactly` | pkg/k8s/k8s.go:115 | an object is listed for (kind, namespace) exactly when it is stored with that kind and, for a non-empty namespace, in that namespace |
| `Cluster.ListedOnce` | pkg/k8s/k8s.go:115 | over a store whose order holds each stored address once, a list for (kind, namespace) answers each selected address exactly once, with the object stored there |
| `Cluster.Store.Create` | pkg/k8s/k8s.go:52 | create fails on a fault, on an empty namespace and with "already exists" on an existing name; otherwise it stores the object in the namespace and appends it to the list order |
| `Cluster.Store.Patch` | pkg/k8s/k8s.go:277 | patch fails on a fault or with "not found"; otherwise it replaces the stored object by the patched one; the list order is unchanged |
| `K8s.ContextWithTimeout` | pkg/k8s/k8s.go:31-37 | a context that has a deadline comes back unchanged with no cancel function; any other context is replaced by a new one whose deadline is `now + timeout`, with a cancel function |
| `K8s.GetDeployment` | pkg/k8s/k8s.go:94-102 | succeeds exactly when the Deployment is stored and the get is not faulted, answering the stored object with that name and namespace; answers "not found" when it is absent |
| `K8s.GetReplicaSet` | pkg/k8s/k8s.go:220-228 | the same as `GetDeployment`, for ReplicaSets |
| `K8s.GetDeployments` | pkg/k8s/k8s.go:106-121 | answers exactly the store's list for `FirstOrBlank(namespace)` and fails exactly when that list is faulted; on success every Deployment stored in that namespace (in every namespace for "") is answered, each stored address exactly once, so the length is the number of such Deployments |
| `K8s.GetPodsWithFilter` | pkg/k8s/k8s.go:190-217 | a list error is returned as is; otherwise the answer is the list itself when there is no filter or its name is empty, else the listed Pods whose name contains the filter name, in list order |
| `K8s.KeepMatching` | pkg/k8s/k8s.go:208-216 | the filtering loop answers `FilterByName`: the listed Pods whose name contains the filter name, in list order |
| `K8s.GetPods` | pkg/k8s/k8s.go:184-186 | answers exactly what `GetPodsWithFilter` answers with no filter, the store's list; on success every Pod stored in the chosen namespace is answered, each stored address exactly once |
| `K8s.FirstOwnerIndex` | pkg/k8s/k8s.go:238-242 | the index of the first owner reference of the given kind, or none when there is none |
| `K8s.GetReplicaSetForPod` | pkg/k8s/k8s.go:231-245 | with no ReplicaSet reference: "failed to find ReplicaSet for Pod" naming the Pod; otherwise the result of getting the first referenced ReplicaSet in the Pod's namespace, which on success has that name and namespace |
| `K8s.GetDeploymentForReplicaSet` | pkg/k8s/k8s.go:150-164 | the same for the first Deployment reference of a ReplicaSet, with "failed to find Deployment for ReplicaSet" |
| `K8s.GetDeploymentsForPods` | pkg/k8s/k8s.go:124-147 | the loop answers `DeploymentsForPods`: Pods whose ReplicaSet is not found are skipped; the first unresolvable Deployment aborts; nothing is deduplicated |
| `K8s.PatchEach` | pkg/k8s/k8s.go:276-284 | the loop answers `PatchInOrder`: patches in input order, stops at the first error with the earlier patches kept; the store stays well formed |
| `K8s.KickDeployments` | pkg/k8s/k8s.go:250-285 | the `force/deploy` timestamp is patched onto each Deployment's pod template, in order, as `PatchInOrder` |
| `K8s.KickPods` | pkg/k8s/k8s.go:292-323 | the `force/deploy` timestamp is patched onto each Pod's own annotations, in order, as `PatchInOrder` |
| `K8s.CreateDeployment` | pkg/k8s/k8s.go:40-64 | answers and leaves the store as `CreateOrFetchDeployment`, the code as written (see Findings) |
| `K8s.DeployPod` | pkg/k8s/k8s.go:67-91 | answers and leaves the store as `CreateOrFetch`: create in the Pod's namespace or the argument; on "already exists" fetch it from the same namespace; any other error is returned |
| `K8sLemmas.ContextWithTimeoutIdempotent` | pkg/k8s/k8s.go:31-37 | the context that comes out passes through again unchanged, with no cancel function |
| `K8sLemmas.DeadlineWithinTimeout` | pkg/k8s/k8s.go:36 | a new deadline lies between now and now plus the timeout |
| `K8sLemmas.FilterByNameIsSubsequence` | pkg/k8s/k8s.go:208-216 | the filtered Pods keep their list order: they are a subsequence of the list |
| `K8sLemmas.FilterByNameMatches` | pkg/k8s/k8s.go:210-214 | every kept Pod's name contains the filter name |
| `K8sLemmas.FilterByNameCounts` | pkg/k8s/k8s.go:210-214 | each Pod whose name matches is kept as many times as it is listed, no other Pod is kept, and the result is no longer than the list |
| `K8sLemmas.FilterByEmptyNameKeepsAll` | pkg/k8s/k8s.go:204-206 | filtering by "" would keep every Pod, so the shortcut for an empty name agrees with the loop |
| `K8sLemmas.ResolvePodFollowsChain` | pkg/k8s/k8s.go:133-143 | a Pod whose first ReplicaSet reference is stored and whose first Deployment reference is stored resolves to that Deployment; a missing Deployment breaks resolution with "not found" |
| `K8sLemmas.OwnerlessPodIsSkipped` | pkg/k8s/k8s.go:134-138 | a Pod with no ReplicaSet reference is skipped |
| `K8sLemmas.ReplicaSetWithoutDeploymentBreaks` | pkg/k8s/k8s.go:139-142 | a ReplicaSet with no Deployment reference breaks resolution with the error naming it |
| `K8sLemmas.SkippedPodsAreIgnored` | pkg/k8s/k8s.go:135-138 | removing the skipped Pods does not change the outcome |
| `K8sLemmas.DeploymentsForPodsSucceedsIff` | pkg/k8s/k8s.go:133-146 | batch resolution succeeds exactly when no Pod is broken, that is when no found ReplicaSet lacks its Deployment |
| `K8sLemmas.DeploymentsForPodsSuccess` | pkg/k8s/k8s.go:133-146 | on success there is one Deployment per unskipped Pod, in Pod order, each the one its Pod resolves to |
| `K8sLemmas.DeploymentsForPodsFailure` | pkg/k8s/k8s.go:140-142 | a failure carries the error of the first broken Pod |
| `K8sLemmas.NoDeduplication` | pkg/k8s/k8s.go:143 | a Pod listed twice yields its Deployment twice |
| `K8sLemmas.PatchInOrderKeepsKeys` | pkg/k8s/k8s.go:276-282 | a kick never adds or removes objects and keeps the store well keyed |
| `K8sLemmas.PatchInOrderSucceedsIff` | pkg/k8s/k8s.go:276-282 | a kick succeeds exactly when every target is stored and no patch of one is faulted |
| `K8sLemmas.PatchInOrderSuccess` | pkg/k8s/k8s.go:276-284 | on success the i-th answer is the object stored at the i-th input's address, patched (the store after the first i+1 patches, at that address), and carries the annotation; the store is the input store with every patch applied |
| `K8sLemmas.PatchInOrderFailure` | pkg/k8s/k8s.go:277-280 | on failure some input `j` is where it stopped: the inputs before it were patched and the store holds exactly those patches, and the error is the one patching input `j` gives |
| `K8sLemmas.StopsAtNext` | pkg/k8s/k8s.go:276-282 | stopping at `j` after a successful first patch is stopping at `j + 1` from the start |
| `K8sLemmas.ApplyIdempotent` | pkg/k8s/k8s.go:261-273 | applying the annotation patch twice is the same as once |
| `K8sLemmas.ApplyAllFrame` | pkg/k8s/k8s.go:276-282 | after all patches, every stored target carries the annotation and every other object is untouched |
| `K8sLemmas.KickDeploymentsStamps` | pkg/k8s/k8s.go:250-285 | on success every answered and every stored kicked Deployment has `force/deploy` set to the timestamp in its pod template |
| `K8sLemmas.KickPodsStamps` | pkg/k8s/k8s.go:292-323 | on success every answered and every stored kicked Pod has `force/deploy` set to the timestamp in its own annotations |
| `K8sLemmas.AlreadyExistsIsRecognised` | pkg/k8s/k8s.go:54 | the server's "already exists" error is recognised by the substring check |
| `K8sLemmas.CreateOrFetchIdempotent` | pkg/k8s/k8s.go:74-90 | with a namespace and no faults on the target, the first call succeeds with the stored object, and a second call answers the same and changes nothing |
| `K8sLemmas.CreateOrFetchSurfacesErrors` | pkg/k8s/k8s.go:79-87 | create-or-fetch returns every create error other than "already exists" and leaves the store unchanged |
| `K8sLemmas.CreateDeploymentWithNamespace` | pkg/k8s/k8s.go:47-63 | for a Deployment that names its namespace, `CreateDeployment` leaves the same store as create-or-fetch; it answers the same object whenever create-or-fetch succeeds, and the same fetch error after "already exists" |
| `K8sLemmas.CreateDeploymentFetchesWrongNamespace` | pkg/k8s/k8s.go:56 | see Findings: an existing Deployment without its own namespace is looked up under "" and answered "not found" |
| `K8sLemmas.DeadlineExceededIsNotAlreadyExists` | pkg/k8s/k8s.go:54 | a "context deadline exceeded" error does not pass the "already exists" check |
| `K8sLemmas.CreateDeploymentSwallowsTimeout` | pkg/k8s/k8s.go:53-63 | see Findings: a create that times out is answered as success with no Deployment |

## Left out

- `GetNodes` (`pkg/k8s/k8s.go:167-180`) is not modelled. It is one list call with no logic, and nodes are not part of the rollout.
- `main.go` is not part of this model. It holds the flag parsing, the output formatting and the composition of the calls.
- The client-go transport, the JSON encoding of objects and the strategic-merge patch document are not modelled. The patch is a structured annotation update, either on the object's metadata or on its pod template.
- The fault table is fixed for the whole run. A repeated identical request therefore fails or succeeds the same way every time: kicking `[d, d]` succeeds exactly when kicking `[d]` does, while the real second patch can time out on its own. A failed create or patch also never changes the store, while a request that timed out may still have been applied by the server. `K8sLemmas.PatchInOrderFailure` (the store holds exactly the earlier patches), `K8sLemmas.NoDeduplication`, `K8sLemmas.CreateDeploymentSwallowsTimeout`, `K8sLemmas.CreateOrFetchSurfacesErrors` and `K8sLemmas.CreateOrFetchIdempotent` (store unchanged) rely on both limits.
- Timers and cancellation: `K8s.ContextWithTimeout` models the deadline choice, but contexts are not threaded through the operations. A request that runs out of time is one more entry in the fault table.
- KickDeployments, KickPods: `time.Now().UTC().String()` is replaced by a timestamp string parameter `ts`.
- CreateDeployment: when a create fails with another error, the model answers `Success(None)`. That stands for the nil error together with whatever object the client returned; the object itself is not modelled.
- DigitCount: Go's `int` is 64 bits wide; the model uses unbounded integers. This changes nothing for the digit count, since `strconv.Itoa` works on every value of that range.
- Strings: they are sequences of code points; invalid UTF-8 is not modelled.
- Only the fields the code reads are in an object: name, namespace, owner references and the two annotation maps. The kind is part of the address (`Ref`), not of the object.

## Findings

| source | as written | input that shows it | evidently intended | confidence | as-written member | corrected member |
|---|---|---|---|---|---|---|
| pkg/k8s/k8s.go:56 | after "already exists", the Deployment is fetched from `deployment.Namespace`, not from the namespace the create used | a Deployment with an empty namespace, created with namespace "apps" where it already exists: the fetch looks in "" and answers "not found" | fetch from the namespace the create used, as `DeployPod` does at line 83 | high, not executed | `K8sLemmas.CreateDeploymentFetchesWrongNamespace` | `K8sLemmas.CreateOrFetchIdempotent` |
| pkg/k8s/k8s.go:53-63 | a create error that is not "already exists" is dropped and `nil` is returned as the error | a create that fails with "context deadline exceeded" yields a nil error and no Deployment | return the error, as `DeployPod` does at lines 85-87 | high, not executed | `K8sLemmas.CreateDeploymentSwallowsTimeout` | `K8sLemmas.CreateOrFetchSurfacesErrors` |

`K8s.CreateOrFetchDeployment` is the code as written. `K8s.CreateOrFetch` is the corrected
create-or-fetch, which `DeployPod` uses as written. The lemmas in the corrected column are proved
for every kind, so they cover Deployments.
