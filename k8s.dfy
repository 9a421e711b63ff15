/**
 * pkg/k8s: the timeout policy, the accessors over the cluster store, the pod filter,
 * the pod -> ReplicaSet -> Deployment owner resolution and the forced-rollout kickers.
 */
module K8s {
  import opened Wrappers
  import opened Strings
  import opened Util
  import opened Cluster

  // ---------------------------------------------------------------- timeout policy

  /** Durations are integers of nanoseconds, like Go's time.Duration. */
  const Second: int := 1_000_000_000
  /** Timeout of single-request operations. */
  const DefaultTimeout: int := 20 * Second
  /** Timeout of the batch operations (resolution of many pods, patching of many objects). */
  const LongerTimeout: int := DefaultTimeout * 3

  /** An execution context, reduced to its optional deadline (an instant in nanoseconds). */
  datatype Context = Context(deadline: Option<int>)

  /** What contextWithTimeout returns: a context, and whether a cancel function (non-nil) came with it. */
  datatype WithCancel = WithCancel(ctx: Context, hasCancel: bool)

  /**
   * contextWithTimeout: a context that already has a deadline is returned as it is, with no
   * cancel function; any other context is replaced by a derived one whose deadline is
   * `timeout` after `now`, together with its cancel function.
   */
  function ContextWithTimeout(ctx: Context, timeout: int, now: int): (r: WithCancel)
    ensures r.ctx.deadline.Some?
    ensures ctx.deadline.Some? <==> !r.hasCancel
    ensures ctx.deadline.Some? ==> r.ctx == ctx
    ensures ctx.deadline.None? ==> r.ctx != ctx && r.ctx.deadline == Some(now + timeout)
  {
    if ctx.deadline.Some? then WithCancel(ctx, false)
    else WithCancel(Context(Some(now + timeout)), true)
  }

  // ---------------------------------------------------------------- accessors

  /** GetDeployment: the Deployment at (namespace, name). */
  function GetDeployment(cs: Store, name: string, namespace: string): (r: Result<Deployment, Error>)
    reads cs
    requires cs.Valid()
    ensures var ref := Ref(DeploymentKind, namespace, name);
      && (r.Success? <==> ref in cs.objects && Request(GetVerb, ref) !in cs.faults)
      && (r.Success? ==> r.value == cs.objects[ref] && r.value.meta.name == name && r.value.meta.namespace == namespace)
      && (ref !in cs.objects && Request(GetVerb, ref) !in cs.faults ==> r == Failure(NotFoundError(ref)))
  {
    cs.Get(DeploymentKind, namespace, name)
  }

  /** GetReplicaSet: the ReplicaSet at (namespace, name). */
  function GetReplicaSet(cs: Store, name: string, namespace: string): (r: Result<ReplicaSet, Error>)
    reads cs
    requires cs.Valid()
    ensures var ref := Ref(ReplicaSetKind, namespace, name);
      && (r.Success? <==> ref in cs.objects && Request(GetVerb, ref) !in cs.faults)
      && (r.Success? ==> r.value == cs.objects[ref] && r.value.meta.name == name && r.value.meta.namespace == namespace)
      && (ref !in cs.objects && Request(GetVerb, ref) !in cs.faults ==> r == Failure(NotFoundError(ref)))
  {
    cs.Get(ReplicaSetKind, namespace, name)
  }

  /**
   * GetDeployments: the Deployments of the first namespace argument, or of all namespaces
   * when there is none or it is blank.
   */
  function GetDeployments(cs: Store, namespace: seq<string>): (r: Result<seq<Deployment>, Error>)
    reads cs
    requires cs.Valid()
    ensures var ns := FirstOrBlank(namespace);
      && r == cs.List(DeploymentKind, ns)
      && (r.Failure? <==> Request(ListVerb, Ref(DeploymentKind, ns, "")) in cs.faults)
      && (r.Success? ==> forall d :: d in r.value <==>
            exists ref :: ref in cs.objects && Selected(ref, DeploymentKind, ns) && cs.objects[ref] == d)
      && (r.Success? ==> ListsOnce(cs.objects, cs.order, DeploymentKind, ns, r.value))
  {
    var ns := FirstOrBlank(namespace);
    var listed := cs.List(DeploymentKind, ns);
    if listed.Success? then
      ListedAreSelected(cs, DeploymentKind, ns);
      ListedOnce(cs.objects, cs.order, DeploymentKind, ns);
      listed
    else
      listed
  }

  lemma ListedAreSelected(cs: Store, kind: Kind, ns: string)
    requires cs.Valid()
    ensures forall o :: o in Listed(cs.objects, cs.order, kind, ns) <==>
      exists ref :: ref in cs.objects && Selected(ref, kind, ns) && cs.objects[ref] == o
  {
    forall o ensures o in Listed(cs.objects, cs.order, kind, ns) <==>
      exists ref :: ref in cs.objects && Selected(ref, kind, ns) && cs.objects[ref] == o
    {
      ListedExactly(cs.objects, cs.order, kind, ns, o);
      if exists ref :: ref in cs.objects && Selected(ref, kind, ns) && cs.objects[ref] == o {
        var ref :| ref in cs.objects && Selected(ref, kind, ns) && cs.objects[ref] == o;
        var i :| 0 <= i < |cs.order| && cs.order[i] == ref;
      }
    }
  }

  // ---------------------------------------------------------------- pod filter

  /** Selection criteria for pods: a substring their names must contain. */
  datatype PodFilter = PodFilter(name: string)

  /** The pods, in their order, whose names contain `name`. */
  function FilterByName(pods: seq<Pod>, name: string): seq<Pod> {
    if pods == [] then []
    else (if Contains(pods[0].meta.name, name) then [pods[0]] else []) + FilterByName(pods[1..], name)
  }

  /**
   * GetPodsWithFilter: lists the pods of the first non-blank namespace argument (all
   * namespaces otherwise); without a filter, or with an empty filter name, answers the list
   * as it is, else the listed pods whose names contain the filter name, in list order.
   */
  method GetPodsWithFilter(cs: Store, filter: Option<PodFilter>, namespace: seq<string>) returns (r: Result<seq<Pod>, Error>)
    requires cs.Valid()
    ensures match cs.List(PodKind, FirstOrBlank(namespace))
      case Failure(e) => r == Failure(e)
      case Success(pods) =>
        r == Success(if filter.None? || filter.value.name == "" then pods else FilterByName(pods, filter.value.name))
  {
    var ns := FirstOrBlank(namespace);
    var podList := cs.List(PodKind, ns);
    if podList.Failure? {
      return Failure(podList.error);
    }
    var pods := podList.value;
    if filter.None? || filter.value.name == "" {
      return Success(pods);
    }
    var filteredPods := KeepMatching(pods, filter.value.name);
    return Success(filteredPods);
  }

  /** Filtering a concatenation filters each part. */
  lemma {:induction false} FilterByNameAppend(a: seq<Pod>, b: seq<Pod>, name: string)
    ensures FilterByName(a + b, name) == FilterByName(a, name) + FilterByName(b, name)
  {
    if a == [] {
      assert a + b == b;
    } else {
      var c := a + b;
      assert c[0] == a[0] && c[1..] == a[1..] + b;
      FilterByNameAppend(a[1..], b, name);
      var head := if Contains(a[0].meta.name, name) then [a[0]] else [];
      assert FilterByName(c, name) == head + FilterByName(a[1..] + b, name);
      assert FilterByName(a, name) == head + FilterByName(a[1..], name);
      assert head + (FilterByName(a[1..], name) + FilterByName(b, name))
          == (head + FilterByName(a[1..], name)) + FilterByName(b, name);
    }
  }

  /** The filtering loop of GetPodsWithFilter: keeps, in order, the pods whose names contain `name`. */
  method KeepMatching(pods: seq<Pod>, name: string) returns (filteredPods: seq<Pod>)
    ensures filteredPods == FilterByName(pods, name)
  {
    filteredPods := [];
    for i := 0 to |pods|
      invariant filteredPods == FilterByName(pods[..i], name)
    {
      assert pods[..i + 1] == pods[..i] + [pods[i]];
      FilterByNameAppend(pods[..i], [pods[i]], name);
      if Contains(pods[i].meta.name, name) {
        filteredPods := filteredPods + [pods[i]];
      }
    }
    assert pods[..|pods|] == pods;
  }

  /** GetPods: GetPodsWithFilter without a filter. */
  method GetPods(cs: Store, namespace: seq<string>) returns (r: Result<seq<Pod>, Error>)
    requires cs.Valid()
    ensures var ns := FirstOrBlank(namespace);
      && r == cs.List(PodKind, ns)
      && (r.Failure? <==> Request(ListVerb, Ref(PodKind, ns, "")) in cs.faults)
      && (r.Success? ==> forall p :: p in r.value <==>
            exists ref :: ref in cs.objects && Selected(ref, PodKind, ns) && cs.objects[ref] == p)
      && (r.Success? ==> ListsOnce(cs.objects, cs.order, PodKind, ns, r.value))
  {
    r := GetPodsWithFilter(cs, None, namespace);
    ListedAreSelected(cs, PodKind, FirstOrBlank(namespace));
    ListedOnce(cs.objects, cs.order, PodKind, FirstOrBlank(namespace));
  }

  // ---------------------------------------------------------------- owner resolution

  /** `i` is the first owner reference of kind `kind`. */
  ghost predicate FirstOfKind(refs: seq<OwnerReference>, kind: string, i: int) {
    0 <= i < |refs| && refs[i].kind == kind && forall j | 0 <= j < i :: refs[j].kind != kind
  }

  /** The position of the first owner reference of kind `kind`, if there is one. */
  function FirstOwnerIndex(refs: seq<OwnerReference>, kind: string): (r: Option<nat>)
    ensures r.Some? ==> FirstOfKind(refs, kind, r.value)
    ensures r.None? ==> forall j | 0 <= j < |refs| :: refs[j].kind != kind
  {
    if refs == [] then None
    else if refs[0].kind == kind then Some(0)
    else match FirstOwnerIndex(refs[1..], kind)
      case None => None
      case Some(i) => Some(i + 1)
  }

  /** The error of a missing owner reference, naming the owned object. */
  function OwnerNotFoundError(owner: Kind, owned: Kind, o: Object): Error {
    Error(Other, "failed to find " + KindName(owner) + " for " + KindName(owned) + ": "
      + o.meta.name + " (ns: " + o.meta.namespace + ")")
  }

  /**
   * GetReplicaSetForPod: the ReplicaSet named by the pod's first owner reference of kind
   * "ReplicaSet", looked up in the pod's namespace; an error when there is no such reference.
   */
  function GetReplicaSetForPod(cs: Store, pod: Pod): (r: Result<ReplicaSet, Error>)
    reads cs
    requires cs.Valid()
    ensures var refs := pod.meta.ownerReferences;
      && ((forall j | 0 <= j < |refs| :: refs[j].kind != "ReplicaSet") ==> r == Failure(OwnerNotFoundError(ReplicaSetKind, PodKind, pod)))
      && (forall i | FirstOfKind(refs, "ReplicaSet", i) :: r == cs.Get(ReplicaSetKind, pod.meta.namespace, refs[i].name))
      && (r.Success? ==>
            r.value.meta.namespace == pod.meta.namespace
            && exists i :: FirstOfKind(refs, "ReplicaSet", i) && r.value.meta.name == refs[i].name)
  {
    match FirstOwnerIndex(pod.meta.ownerReferences, KindName(ReplicaSetKind))
    case Some(i) => GetReplicaSet(cs, pod.meta.ownerReferences[i].name, pod.meta.namespace)
    case None => Failure(OwnerNotFoundError(ReplicaSetKind, PodKind, pod))
  }

  /**
   * GetDeploymentForReplicaSet: the Deployment named by the ReplicaSet's first owner reference
   * of kind "Deployment", looked up in the ReplicaSet's namespace; an error when there is none.
   */
  function GetDeploymentForReplicaSet(cs: Store, rs: ReplicaSet): (r: Result<Deployment, Error>)
    reads cs
    requires cs.Valid()
    ensures var refs := rs.meta.ownerReferences;
      && ((forall j | 0 <= j < |refs| :: refs[j].kind != "Deployment") ==> r == Failure(OwnerNotFoundError(DeploymentKind, ReplicaSetKind, rs)))
      && (forall i | FirstOfKind(refs, "Deployment", i) :: r == cs.Get(DeploymentKind, rs.meta.namespace, refs[i].name))
      && (r.Success? ==>
            r.value.meta.namespace == rs.meta.namespace
            && exists i :: FirstOfKind(refs, "Deployment", i) && r.value.meta.name == refs[i].name)
  {
    match FirstOwnerIndex(rs.meta.ownerReferences, KindName(DeploymentKind))
    case Some(i) => GetDeployment(cs, rs.meta.ownerReferences[i].name, rs.meta.namespace)
    case None => Failure(OwnerNotFoundError(DeploymentKind, ReplicaSetKind, rs))
  }

  /** How one pod fares in batch resolution. */
  datatype Resolution = Skipped | Resolved(deployment: Deployment) | Broken(error: Error)

  /** A pod without a resolvable ReplicaSet is skipped; a ReplicaSet without a resolvable Deployment is broken. */
  function ResolvePod(cs: Store, pod: Pod): Resolution
    reads cs
    requires cs.Valid()
  {
    match GetReplicaSetForPod(cs, pod)
    case Failure(_) => Skipped
    case Success(rs) =>
      match GetDeploymentForReplicaSet(cs, rs)
      case Failure(e) => Broken(e)
      case Success(d) => Resolved(d)
  }

  /** `prefix` in front of a successful result; a failure stays as it is. */
  function Prepend<T>(prefix: seq<T>, r: Result<seq<T>, Error>): Result<seq<T>, Error> {
    match r
    case Success(xs) => Success(prefix + xs)
    case Failure(e) => Failure(e)
  }

  lemma PrependNothing<T>(r: Result<seq<T>, Error>)
    ensures Prepend([], r) == r
  {
    if r.Success? {
      assert [] + r.value == r.value;
    }
  }

  lemma PrependTwice<T>(a: seq<T>, b: seq<T>, r: Result<seq<T>, Error>)
    ensures Prepend(a, Prepend(b, r)) == Prepend(a + b, r)
  {
    if r.Success? {
      assert a + (b + r.value) == (a + b) + r.value;
    }
  }

  /** The Deployments of the pods, pod by pod, stopping at the first broken one. */
  function DeploymentsForPods(cs: Store, pods: seq<Pod>): Result<seq<Deployment>, Error>
    reads cs
    requires cs.Valid()
  {
    if pods == [] then Success([])
    else match ResolvePod(cs, pods[0])
      case Skipped => DeploymentsForPods(cs, pods[1..])
      case Broken(e) => Failure(e)
      case Resolved(d) => Prepend([d], DeploymentsForPods(cs, pods[1..]))
  }

  /**
   * GetDeploymentsForPods: walks the pods in order; a pod whose ReplicaSet cannot be found
   * is skipped, the first ReplicaSet whose Deployment cannot be found aborts the batch.
   * Nothing is deduplicated.
   */
  method GetDeploymentsForPods(cs: Store, pods: seq<Pod>) returns (r: Result<seq<Deployment>, Error>)
    requires cs.Valid()
    ensures r == DeploymentsForPods(cs, pods)
  {
    var deployments: seq<Deployment> := [];
    assert pods[0..] == pods;
    PrependNothing(DeploymentsForPods(cs, pods));
    for i := 0 to |pods|
      invariant DeploymentsForPods(cs, pods) == Prepend(deployments, DeploymentsForPods(cs, pods[i..]))
    {
      assert pods[i..][0] == pods[i] && pods[i..][1..] == pods[i + 1..];
      var replicaSet := GetReplicaSetForPod(cs, pods[i]);
      if replicaSet.Failure? {
        continue;
      }
      var deployment := GetDeploymentForReplicaSet(cs, replicaSet.value);
      if deployment.Failure? {
        return Failure(deployment.error);
      }
      PrependTwice(deployments, [deployment.value], DeploymentsForPods(cs, pods[i + 1..]));
      deployments := deployments + [deployment.value];
    }
    assert pods[|pods|..] == [];
    assert deployments + [] == deployments;
    return Success(deployments);
  }

  // ---------------------------------------------------------------- kickers

  /** The annotation whose change forces a rollout. */
  const ForceDeployAnnotation := "force/deploy"

  /** The store after every object of `items` that exists has been patched, one after the other. */
  function ApplyAll(objects: map<Ref, Object>, kind: Kind, items: seq<Object>, p: Patch): map<Ref, Object> {
    if items == [] then objects
    else
      var ref := RefOf(kind, items[0]);
      ApplyAll(if ref in objects then objects[ref := Apply(kind, objects[ref], p)] else objects, kind, items[1..], p)
  }

  /** Patches the objects in order, stopping at the first failure; answers the patched objects and the new store. */
  function PatchInOrder(objects: map<Ref, Object>, faults: map<Request, Error>, kind: Kind, items: seq<Object>, p: Patch)
    : (Result<seq<Object>, Error>, map<Ref, Object>)
  {
    if items == [] then (Success([]), objects)
    else
      var first := PatchIn(objects, faults, RefOf(kind, items[0]), p);
      match first.0
      case Failure(e) => (Failure(e), first.1)
      case Success(o) =>
        var rest := PatchInOrder(first.1, faults, kind, items[1..], p);
        (Prepend([o], rest.0), rest.1)
  }

  /** The loop shared by both kickers: one patch document, every object in input order. */
  method PatchEach(cs: Store, kind: Kind, items: seq<Object>, p: Patch) returns (r: Result<seq<Object>, Error>)
    requires cs.Valid()
    modifies cs
    ensures cs.Valid() && cs.order == old(cs.order)
    ensures (r, cs.objects) == PatchInOrder(old(cs.objects), cs.faults, kind, items, p)
  {
    var updated: seq<Object> := [];
    assert items[0..] == items;
    PrependNothing(PatchInOrder(cs.objects, cs.faults, kind, items, p).0);
    for i := 0 to |items|
      invariant cs.Valid() && cs.order == old(cs.order)
      invariant PatchInOrder(old(cs.objects), cs.faults, kind, items, p)
        == (Prepend(updated, PatchInOrder(cs.objects, cs.faults, kind, items[i..], p).0),
            PatchInOrder(cs.objects, cs.faults, kind, items[i..], p).1)
    {
      assert items[i..][0] == items[i] && items[i..][1..] == items[i + 1..];
      var patched := cs.Patch(kind, items[i].meta.namespace, items[i].meta.name, p);
      if patched.Failure? {
        return Failure(patched.error);
      }
      PrependTwice(updated, [patched.value], PatchInOrder(cs.objects, cs.faults, kind, items[i + 1..], p).0);
      updated := updated + [patched.value];
    }
    assert items[|items|..] == [];
    assert updated + [] == updated;
    return Success(updated);
  }

  /**
   * KickDeployments: sets the pod-template annotation "force/deploy" of every Deployment to
   * the one timestamp `ts`, in input order; the first failed patch aborts with its error.
   */
  method KickDeployments(cs: Store, deployments: seq<Deployment>, ts: string) returns (r: Result<seq<Deployment>, Error>)
    requires cs.Valid()
    modifies cs
    ensures cs.Valid() && cs.order == old(cs.order)
    ensures (r, cs.objects)
      == PatchInOrder(old(cs.objects), cs.faults, DeploymentKind, deployments, AnnotationPatch(TemplateAnnotations, ForceDeployAnnotation, ts))
  {
    r := PatchEach(cs, DeploymentKind, deployments, AnnotationPatch(TemplateAnnotations, ForceDeployAnnotation, ts));
  }

  /**
   * KickPods: sets the annotation "force/deploy" of every Pod to the one timestamp `ts`, in
   * input order; the first failed patch aborts with its error.
   */
  method KickPods(cs: Store, pods: seq<Pod>, ts: string) returns (r: Result<seq<Pod>, Error>)
    requires cs.Valid()
    modifies cs
    ensures cs.Valid() && cs.order == old(cs.order)
    ensures (r, cs.objects)
      == PatchInOrder(old(cs.objects), cs.faults, PodKind, pods, AnnotationPatch(MetadataAnnotations, ForceDeployAnnotation, ts))
  {
    r := PatchEach(cs, PodKind, pods, AnnotationPatch(MetadataAnnotations, ForceDeployAnnotation, ts));
  }

  // ---------------------------------------------------------------- create or fetch

  /** The object's own namespace when it has one, else the namespace argument. */
  function TargetNamespace(o: Object, namespace: string): string {
    if o.meta.namespace != "" then o.meta.namespace else namespace
  }

  /** The create error that the create-or-fetch operations recover from, recognised by its text. */
  predicate SaysAlreadyExists(e: Error) {
    Contains(e.message, "already exists")
  }

  /**
   * CreateDeployment as written: creates in the target namespace; on an "already exists"
   * error fetches by name from the Deployment's OWN namespace field (possibly empty), and on
   * any other create error answers no object and NO error.
   */
  function CreateOrFetchDeployment(objects: map<Ref, Object>, faults: map<Request, Error>, d: Deployment, namespace: string)
    : (Result<Option<Deployment>, Error>, map<Ref, Object>)
  {
    var created := CreateIn(objects, faults, DeploymentKind, TargetNamespace(d, namespace), d);
    match created.0
    case Success(nd) => (Success(Some(nd)), created.1)
    case Failure(e) =>
      if !SaysAlreadyExists(e) then (Success(None), created.1)
      else match GetIn(created.1, faults, Ref(DeploymentKind, d.meta.namespace, d.meta.name))
        case Success(existing) => (Success(Some(existing)), created.1)
        case Failure(e2) => (Failure(e2), created.1)
  }

  /**
   * Create-or-fetch as DeployPod does it: creates in the target namespace; on an "already
   * exists" error fetches by name from that same namespace; surfaces every other error.
   */
  function CreateOrFetch(objects: map<Ref, Object>, faults: map<Request, Error>, kind: Kind, o: Object, namespace: string)
    : (Result<Object, Error>, map<Ref, Object>)
  {
    var ns := TargetNamespace(o, namespace);
    var created := CreateIn(objects, faults, kind, ns, o);
    match created.0
    case Success(no) => (Success(no), created.1)
    case Failure(e) =>
      if SaysAlreadyExists(e) then (GetIn(created.1, faults, Ref(kind, ns, o.meta.name)), created.1)
      else (Failure(e), created.1)
  }

  /** CreateDeployment, with its two quirks (fallback namespace, swallowed errors) kept. */
  method CreateDeployment(cs: Store, deployment: Deployment, namespace: string) returns (r: Result<Option<Deployment>, Error>)
    requires cs.Valid()
    modifies cs
    ensures cs.Valid()
    ensures (r, cs.objects) == CreateOrFetchDeployment(old(cs.objects), cs.faults, deployment, namespace)
    ensures cs.order == old(cs.order)
      + (if CreateIn(old(cs.objects), cs.faults, DeploymentKind, TargetNamespace(deployment, namespace), deployment).0.Success?
         then [Ref(DeploymentKind, TargetNamespace(deployment, namespace), deployment.meta.name)] else [])
  {
    var ns := TargetNamespace(deployment, namespace);
    var newDeployment := cs.Create(DeploymentKind, ns, deployment);
    if newDeployment.Failure? {
      if SaysAlreadyExists(newDeployment.error) {
        var fetched := GetDeployment(cs, deployment.meta.name, deployment.meta.namespace);
        if fetched.Failure? {
          return Failure(fetched.error);
        }
        return Success(Some(fetched.value));
      }
      return Success(None);
    }
    return Success(Some(newDeployment.value));
  }

  /** DeployPod: create-or-fetch of a Pod. */
  method DeployPod(cs: Store, pod: Pod, namespace: string) returns (r: Result<Pod, Error>)
    requires cs.Valid()
    modifies cs
    ensures cs.Valid()
    ensures (r, cs.objects) == CreateOrFetch(old(cs.objects), cs.faults, PodKind, pod, namespace)
    ensures cs.order == old(cs.order)
      + (if CreateIn(old(cs.objects), cs.faults, PodKind, TargetNamespace(pod, namespace), pod).0.Success?
         then [Ref(PodKind, TargetNamespace(pod, namespace), pod.meta.name)] else [])
  {
    var ns := TargetNamespace(pod, namespace);
    var newPod := cs.Create(PodKind, ns, pod);
    if newPod.Failure? {
      if SaysAlreadyExists(newPod.error) {
        newPod := cs.Get(PodKind, ns, pod.meta.name);
      }
      if newPod.Failure? {
        return Failure(newPod.error);
      }
    }
    return newPod;
  }
}
