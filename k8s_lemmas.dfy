/** Properties of the pkg/k8s model: filtering, resolution, kicking and create-or-fetch. */
module K8sLemmas {
  import opened Wrappers
  import opened Strings
  import opened Cluster
  import opened K8s

  // ---------------------------------------------------------------- timeout policy

  /** A context that came out of the policy passes through it again unchanged, without a cancel function. */
  lemma {:induction false} ContextWithTimeoutIdempotent(ctx: Context, timeout: int, now: int, timeout2: int, now2: int)
    ensures var first := ContextWithTimeout(ctx, timeout, now);
      ContextWithTimeout(first.ctx, timeout2, now2) == WithCancel(first.ctx, false)
  {
  }

  /** A fresh deadline lies between now and now + timeout. */
  lemma {:induction false} DeadlineWithinTimeout(ctx: Context, timeout: int, now: int)
    requires ctx.deadline.None? && timeout >= 0
    ensures var d := ContextWithTimeout(ctx, timeout, now).ctx.deadline.value; now <= d <= now + timeout
  {
  }

  // ---------------------------------------------------------------- pod filter

  /** `a` can be obtained from `b` by deleting elements. */
  ghost predicate IsSubsequence<T>(a: seq<T>, b: seq<T>)
    decreases |b|
  {
    a == [] || (|b| > 0 && ((a[0] == b[0] && IsSubsequence(a[1..], b[1..])) || IsSubsequence(a, b[1..])))
  }

  /** The filter keeps pods in list order: its result is a subsequence of the list. */
  lemma {:induction false} FilterByNameIsSubsequence(pods: seq<Pod>, name: string)
    ensures IsSubsequence(FilterByName(pods, name), pods)
  {
    if pods != [] {
      FilterByNameIsSubsequence(pods[1..], name);
      var r := FilterByName(pods, name);
      if Contains(pods[0].meta.name, name) {
        assert r[0] == pods[0] && r[1..] == FilterByName(pods[1..], name);
      } else {
        assert r == FilterByName(pods[1..], name);
      }
    }
  }

  /** Every kept pod's name contains the filter name. */
  lemma {:induction false} FilterByNameMatches(pods: seq<Pod>, name: string)
    ensures forall i | 0 <= i < |FilterByName(pods, name)| :: Contains(FilterByName(pods, name)[i].meta.name, name)
  {
    if pods != [] {
      FilterByNameMatches(pods[1..], name);
      var r, rt := FilterByName(pods, name), FilterByName(pods[1..], name);
      if Contains(pods[0].meta.name, name) {
        forall i | 0 <= i < |r| ensures Contains(r[i].meta.name, name) {
          if i > 0 { assert r[i] == rt[i - 1]; }
        }
      }
    }
  }

  /**
   * Every pod whose name contains the filter name is kept as often as it is listed, and no
   * other pod is kept; so the result is no longer than the list.
   */
  lemma {:induction false} FilterByNameCounts(pods: seq<Pod>, name: string)
    ensures forall p :: multiset(FilterByName(pods, name))[p] == if Contains(p.meta.name, name) then multiset(pods)[p] else 0
    ensures |FilterByName(pods, name)| <= |pods|
  {
    if pods != [] {
      FilterByNameCounts(pods[1..], name);
      assert pods == [pods[0]] + pods[1..];
    }
  }

  /** The empty filter name keeps every pod: the shortcut for an empty name changes nothing. */
  lemma {:induction false} FilterByEmptyNameKeepsAll(pods: seq<Pod>)
    ensures FilterByName(pods, "") == pods
  {
    if pods != [] {
      FilterByEmptyNameKeepsAll(pods[1..]);
      assert HasPrefix(pods[0].meta.name, "");
      assert pods == [pods[0]] + pods[1..];
    }
  }

  // ---------------------------------------------------------------- owner resolution

  /**
   * A pod whose first ReplicaSet reference names a stored ReplicaSet of its namespace, whose
   * first Deployment reference names a stored Deployment of that namespace, resolves to that
   * Deployment (given no faults on the two lookups).
   */
  lemma {:induction false} ResolvePodFollowsChain(cs: Store, pod: Pod, i: nat, j: nat)
    requires cs.Valid()
    requires FirstOfKind(pod.meta.ownerReferences, "ReplicaSet", i)
    requires var rsRef := Ref(ReplicaSetKind, pod.meta.namespace, pod.meta.ownerReferences[i].name);
      && rsRef in cs.objects && Request(GetVerb, rsRef) !in cs.faults
      && FirstOfKind(cs.objects[rsRef].meta.ownerReferences, "Deployment", j)
    ensures var rs := cs.objects[Ref(ReplicaSetKind, pod.meta.namespace, pod.meta.ownerReferences[i].name)];
      var dRef := Ref(DeploymentKind, pod.meta.namespace, rs.meta.ownerReferences[j].name);
      && (dRef in cs.objects && Request(GetVerb, dRef) !in cs.faults ==> ResolvePod(cs, pod) == Resolved(cs.objects[dRef]))
      && (dRef !in cs.objects && Request(GetVerb, dRef) !in cs.faults ==> ResolvePod(cs, pod) == Broken(NotFoundError(dRef)))
  {
    var rsRef := Ref(ReplicaSetKind, pod.meta.namespace, pod.meta.ownerReferences[i].name);
    var rs := cs.objects[rsRef];
    assert GetReplicaSetForPod(cs, pod) == Success(rs);
    assert rs.meta.namespace == pod.meta.namespace;
  }

  /** A pod without a ReplicaSet reference is skipped, whatever else it references. */
  lemma {:induction false} OwnerlessPodIsSkipped(cs: Store, pod: Pod)
    requires cs.Valid()
    requires forall j | 0 <= j < |pod.meta.ownerReferences| :: pod.meta.ownerReferences[j].kind != "ReplicaSet"
    ensures ResolvePod(cs, pod) == Skipped
  {
  }

  /** A resolvable ReplicaSet without a Deployment reference breaks resolution with an error naming it. */
  lemma {:induction false} ReplicaSetWithoutDeploymentBreaks(cs: Store, pod: Pod, rs: ReplicaSet)
    requires cs.Valid()
    requires GetReplicaSetForPod(cs, pod) == Success(rs)
    requires forall j | 0 <= j < |rs.meta.ownerReferences| :: rs.meta.ownerReferences[j].kind != "Deployment"
    ensures ResolvePod(cs, pod) == Broken(OwnerNotFoundError(DeploymentKind, ReplicaSetKind, rs))
  {
  }

  // ---------------------------------------------------------------- batch resolution

  /** The pods that are not skipped, in order. */
  function Unskipped(cs: Store, pods: seq<Pod>): seq<Pod>
    reads cs
    requires cs.Valid()
  {
    if pods == [] then []
    else (if ResolvePod(cs, pods[0]).Skipped? then [] else [pods[0]]) + Unskipped(cs, pods[1..])
  }

  /** Skipped pods do not influence batch resolution. */
  lemma {:induction false} SkippedPodsAreIgnored(cs: Store, pods: seq<Pod>)
    requires cs.Valid()
    ensures DeploymentsForPods(cs, pods) == DeploymentsForPods(cs, Unskipped(cs, pods))
  {
    if pods != [] {
      SkippedPodsAreIgnored(cs, pods[1..]);
      var u, ut := Unskipped(cs, pods), Unskipped(cs, pods[1..]);
      if ResolvePod(cs, pods[0]).Skipped? {
        assert u == [] + ut == ut;
      } else {
        assert u == [pods[0]] + ut;
        assert u[0] == pods[0] && u[1..] == ut;
      }
    }
  }

  /** Batch resolution succeeds exactly when no pod is broken. */
  lemma {:induction false} DeploymentsForPodsSucceedsIff(cs: Store, pods: seq<Pod>)
    requires cs.Valid()
    ensures DeploymentsForPods(cs, pods).Success? <==> forall i | 0 <= i < |pods| :: !ResolvePod(cs, pods[i]).Broken?
  {
    if pods != [] {
      DeploymentsForPodsSucceedsIff(cs, pods[1..]);
      forall i | 0 <= i < |pods| - 1 ensures pods[1..][i] == pods[i + 1] { }
    }
  }

  /** `ds` lists, one for one and in order, the Deployments the pods `u` resolve to. */
  ghost predicate ResolveTo(cs: Store, u: seq<Pod>, ds: seq<Deployment>)
    reads cs
    requires cs.Valid()
  {
    |ds| == |u| && forall i | 0 <= i < |ds| :: ResolvePod(cs, u[i]) == Resolved(ds[i])
  }

  /** A pod resolving to `d` in front of pods resolving to `ds` resolves to `d` in front of `ds`. */
  lemma {:induction false} ResolveToCons(cs: Store, p: Pod, d: Deployment, u: seq<Pod>, ds: seq<Deployment>)
    requires cs.Valid() && ResolvePod(cs, p) == Resolved(d) && ResolveTo(cs, u, ds)
    ensures ResolveTo(cs, [p] + u, [d] + ds)
  {
    var u', ds' := [p] + u, [d] + ds;
    forall i | 0 <= i < |ds'| ensures ResolvePod(cs, u'[i]) == Resolved(ds'[i]) {
      if i > 0 {
        assert u'[i] == u[i - 1] && ds'[i] == ds[i - 1];
      }
    }
  }

  /**
   * A successful batch resolution answers one Deployment per unskipped pod, in pod order,
   * duplicates included: the i-th answer is what the i-th unskipped pod resolves to.
   */
  lemma {:induction false} DeploymentsForPodsSuccess(cs: Store, pods: seq<Pod>)
    requires cs.Valid()
    ensures DeploymentsForPods(cs, pods).Success? ==>
      && ResolveTo(cs, Unskipped(cs, pods), DeploymentsForPods(cs, pods).value)
      && |Unskipped(cs, pods)| <= |pods|
  {
    if pods != [] {
      DeploymentsForPodsSuccess(cs, pods[1..]);
      var first := ResolvePod(cs, pods[0]);
      var rest, ut := DeploymentsForPods(cs, pods[1..]), Unskipped(cs, pods[1..]);
      if first.Skipped? {
        assert Unskipped(cs, pods) == [] + ut;
      } else if first.Resolved? && rest.Success? {
        assert Unskipped(cs, pods) == [pods[0]] + ut;
        assert DeploymentsForPods(cs, pods) == Success([first.deployment] + rest.value);
        ResolveToCons(cs, pods[0], first.deployment, ut, rest.value);
      }
    }
  }

  /** Pod `i` is the first broken one, and it breaks with `e`. */
  ghost predicate FirstBroken(cs: Store, pods: seq<Pod>, i: int, e: Error)
    reads cs
    requires cs.Valid()
  {
    && 0 <= i < |pods|
    && ResolvePod(cs, pods[i]) == Broken(e)
    && forall j | 0 <= j < i :: !ResolvePod(cs, pods[j]).Broken?
  }

  /** After a first pod that is not broken, the first broken pod of the rest is the first broken pod of all. */
  lemma {:induction false} FirstBrokenShifts(cs: Store, pods: seq<Pod>, i: int, e: Error)
    requires cs.Valid() && pods != [] && !ResolvePod(cs, pods[0]).Broken?
    requires FirstBroken(cs, pods[1..], i, e)
    ensures FirstBroken(cs, pods, i + 1, e)
  {
    assert pods[i + 1] == pods[1..][i];
    forall j | 0 <= j < i + 1 ensures !ResolvePod(cs, pods[j]).Broken? {
      if j > 0 { assert pods[j] == pods[1..][j - 1]; }
    }
  }

  /** A failed batch resolution answers the error of the first broken pod. */
  lemma {:induction false} DeploymentsForPodsFailure(cs: Store, pods: seq<Pod>)
    requires cs.Valid()
    ensures DeploymentsForPods(cs, pods).Failure? ==>
      exists i :: FirstBroken(cs, pods, i, DeploymentsForPods(cs, pods).error)
  {
    if pods != [] && DeploymentsForPods(cs, pods).Failure? {
      var e := DeploymentsForPods(cs, pods).error;
      if ResolvePod(cs, pods[0]).Broken? {
        assert FirstBroken(cs, pods, 0, e);
      } else {
        DeploymentsForPodsFailure(cs, pods[1..]);
        var i :| FirstBroken(cs, pods[1..], i, e);
        FirstBrokenShifts(cs, pods, i, e);
      }
    }
  }

  /** No deduplication: a pod listed twice yields its Deployment twice. */
  lemma {:induction false} NoDeduplication(cs: Store, pod: Pod, d: Deployment)
    requires cs.Valid()
    requires ResolvePod(cs, pod) == Resolved(d)
    ensures DeploymentsForPods(cs, [pod, pod]) == Success([d, d])
  {
    assert [pod, pod][1..] == [pod];
    assert [pod][1..] == [];
    assert [d] + [] == [d];
    assert DeploymentsForPods(cs, [pod]) == Prepend([d], Success([])) == Success([d]);
    assert [d] + [d] == [d, d];
  }

  // ---------------------------------------------------------------- kickers

  /** The addresses patched for `items`. */
  ghost predicate Targets(kind: Kind, items: seq<Object>, ref: Ref) {
    exists i :: 0 <= i < |items| && RefOf(kind, items[i]) == ref
  }

  /** Patching never adds or removes objects and keeps them at their addresses. */
  lemma {:induction false} PatchInOrderKeepsKeys(objects: map<Ref, Object>, faults: map<Request, Error>, kind: Kind, items: seq<Object>, p: Patch)
    requires WellKeyed(objects)
    ensures var after := PatchInOrder(objects, faults, kind, items, p).1;
      after.Keys == objects.Keys && WellKeyed(after)
  {
    if items != [] {
      var first := PatchIn(objects, faults, RefOf(kind, items[0]), p);
      assert first.1.Keys == objects.Keys;
      PatchInOrderKeepsKeys(first.1, faults, kind, items[1..], p);
    }
  }

  /** A kick succeeds exactly when every target exists and no patch of one is faulted. */
  lemma {:induction false} PatchInOrderSucceedsIff(objects: map<Ref, Object>, faults: map<Request, Error>, kind: Kind, items: seq<Object>, p: Patch)
    ensures PatchInOrder(objects, faults, kind, items, p).0.Success?
      <==> forall i | 0 <= i < |items| ::
             RefOf(kind, items[i]) in objects && Request(PatchVerb, RefOf(kind, items[i])) !in faults
  {
    if items != [] {
      var first := PatchIn(objects, faults, RefOf(kind, items[0]), p);
      assert first.1.Keys == objects.Keys;
      PatchInOrderSucceedsIff(first.1, faults, kind, items[1..], p);
      forall i | 0 <= i < |items| - 1 ensures items[1..][i] == items[i + 1] { }
    }
  }

  /** What a successful kick of `items` answers and leaves behind. */
  ghost predicate KickedAll(objects: map<Ref, Object>, kind: Kind, items: seq<Object>, p: Patch,
                            outcome: (Result<seq<Object>, Error>, map<Ref, Object>))
  {
    outcome.0.Success? ==>
      && |outcome.0.value| == |items|
      && outcome.1 == ApplyAll(objects, kind, items, p)
      && forall i | 0 <= i < |items| ::
           && RefOf(kind, outcome.0.value[i]) == RefOf(kind, items[i])
           && Carries(kind, outcome.0.value[i], p)
           && RefOf(kind, items[i]) in ApplyAll(objects, kind, items[..i + 1], p)
           && outcome.0.value[i] == ApplyAll(objects, kind, items[..i + 1], p)[RefOf(kind, items[i])]
  }

  /** Applying the patches of a non-empty batch is applying the first one, then the rest. */
  lemma {:induction false} ApplyAllFirst(objects: map<Ref, Object>, kind: Kind, items: seq<Object>, p: Patch)
    requires items != [] && RefOf(kind, items[0]) in objects
    ensures ApplyAll(objects, kind, items, p)
         == ApplyAll(objects[RefOf(kind, items[0]) := Apply(kind, objects[RefOf(kind, items[0])], p)], kind, items[1..], p)
  {
  }

  /** A first patch that went through, followed by a successful rest, is a successful kick of all. */
  lemma {:induction false} KickedAllExtends(objects: map<Ref, Object>, faults: map<Request, Error>, kind: Kind, items: seq<Object>, p: Patch)
    requires WellKeyed(objects) && items != []
    requires PatchIn(objects, faults, RefOf(kind, items[0]), p).0.Success?
    requires var next := PatchIn(objects, faults, RefOf(kind, items[0]), p).1;
      KickedAll(next, kind, items[1..], p, PatchInOrder(next, faults, kind, items[1..], p))
    ensures KickedAll(objects, kind, items, p, PatchInOrder(objects, faults, kind, items, p))
  {
    var ref := RefOf(kind, items[0]);
    var first := PatchIn(objects, faults, ref, p);
    var o := first.0.value;
    assert first.1 == objects[ref := Apply(kind, objects[ref], p)];
    var rest := PatchInOrder(first.1, faults, kind, items[1..], p);
    if rest.0.Success? {
      var ds := [o] + rest.0.value;
      forall i | 0 <= i < |items|
        ensures RefOf(kind, ds[i]) == RefOf(kind, items[i]) && Carries(kind, ds[i], p)
        ensures RefOf(kind, items[i]) in ApplyAll(objects, kind, items[..i + 1], p)
        ensures ds[i] == ApplyAll(objects, kind, items[..i + 1], p)[RefOf(kind, items[i])]
      {
        ApplyAllFirst(objects, kind, items[..i + 1], p);
        assert items[..i + 1][0] == items[0];
        if i == 0 {
          assert items[..1][1..] == [];
        } else {
          assert ds[i] == rest.0.value[i - 1] && items[i] == items[1..][i - 1];
          assert items[..i + 1][1..] == items[1..][..i];
        }
      }
    }
  }

  /**
   * A successful kick answers, for the i-th input, the i-th patched object: same address,
   * carrying the patched annotation; the store ends as if every patch had been applied.
   */
  lemma {:induction false} PatchInOrderSuccess(objects: map<Ref, Object>, faults: map<Request, Error>, kind: Kind, items: seq<Object>, p: Patch)
    requires WellKeyed(objects)
    ensures KickedAll(objects, kind, items, p, PatchInOrder(objects, faults, kind, items, p))
  {
    if items != [] {
      var first := PatchIn(objects, faults, RefOf(kind, items[0]), p);
      if first.0.Success? {
        assert WellKeyed(first.1);
        PatchInOrderSuccess(first.1, faults, kind, items[1..], p);
        KickedAllExtends(objects, faults, kind, items, p);
      }
    }
  }

  /**
   * The kick of `items` stopped at input `j`: every earlier patch went through, the store holds
   * exactly those patches, and the j-th patch fails with the kick's error.
   */
  ghost predicate StopsAt(objects: map<Ref, Object>, faults: map<Request, Error>, kind: Kind, items: seq<Object>, p: Patch,
                          j: int, outcome: (Result<seq<Object>, Error>, map<Ref, Object>))
  {
    && 0 <= j < |items|
    && outcome.1 == ApplyAll(objects, kind, items[..j], p)
    && (forall i | 0 <= i < j :: RefOf(kind, items[i]) in objects && Request(PatchVerb, RefOf(kind, items[i])) !in faults)
    && outcome.0.Failure?
    && PatchIn(outcome.1, faults, RefOf(kind, items[j]), p).0 == Failure(outcome.0.error)
  }

  /** Stopping at `j` in the rest of the kick is stopping at `j + 1` in the whole kick, after a first patch that went through. */
  lemma {:induction false} StopsAtNext(objects: map<Ref, Object>, faults: map<Request, Error>, kind: Kind, items: seq<Object>, p: Patch,
                    j: int, outcome: (Result<seq<Object>, Error>, map<Ref, Object>))
    requires items != []
    requires RefOf(kind, items[0]) in objects && Request(PatchVerb, RefOf(kind, items[0])) !in faults
    requires StopsAt(PatchIn(objects, faults, RefOf(kind, items[0]), p).1, faults, kind, items[1..], p, j, outcome)
    ensures StopsAt(objects, faults, kind, items, p, j + 1, outcome)
  {
    var next := PatchIn(objects, faults, RefOf(kind, items[0]), p).1;
    var t := items[1..];
    assert next.Keys == objects.Keys;
    assert items[..j + 1] == [items[0]] + t[..j];
    assert items[..j + 1][1..] == t[..j];
    assert ApplyAll(objects, kind, items[..j + 1], p) == ApplyAll(next, kind, t[..j], p);
    forall i | 0 <= i < j + 1
      ensures RefOf(kind, items[i]) in objects && Request(PatchVerb, RefOf(kind, items[i])) !in faults
    {
      if i > 0 { assert items[i] == t[i - 1]; }
    }
  }

  /**
   * A failed kick stops at the first input whose patch fails, with that patch's error; the
   * store keeps the patches of every earlier input.
   */
  lemma {:induction false} PatchInOrderFailure(objects: map<Ref, Object>, faults: map<Request, Error>, kind: Kind, items: seq<Object>, p: Patch)
    ensures PatchInOrder(objects, faults, kind, items, p).0.Failure? ==>
      exists j :: StopsAt(objects, faults, kind, items, p, j, PatchInOrder(objects, faults, kind, items, p))
  {
    var outcome := PatchInOrder(objects, faults, kind, items, p);
    if items != [] && outcome.0.Failure? {
      var first := PatchIn(objects, faults, RefOf(kind, items[0]), p);
      if first.0.Failure? {
        assert items[..0] == [];
        assert StopsAt(objects, faults, kind, items, p, 0, outcome);
      } else {
        PatchInOrderFailure(first.1, faults, kind, items[1..], p);
        var j :| StopsAt(first.1, faults, kind, items[1..], p, j, outcome);
        StopsAtNext(objects, faults, kind, items, p, j, outcome);
      }
    }
  }

  /** Applying the same patch twice is applying it once. */
  lemma {:induction false} ApplyIdempotent(kind: Kind, o: Object, p: Patch)
    ensures Apply(kind, Apply(kind, o, p), p) == Apply(kind, o, p)
  {
  }

  /**
   * After all patches, every stored target carries the annotation, and every object that
   * is not a target is untouched.
   */
  lemma {:induction false} ApplyAllFrame(objects: map<Ref, Object>, kind: Kind, items: seq<Object>, p: Patch, ref: Ref)
    requires ref.kind == kind
    ensures var after := ApplyAll(objects, kind, items, p);
      && after.Keys == objects.Keys
      && (ref in objects && Targets(kind, items, ref) ==> Carries(kind, after[ref], p))
      && (ref in objects && !Targets(kind, items, ref) ==> after[ref] == objects[ref])
  {
    if items != [] {
      var first := RefOf(kind, items[0]);
      var next := if first in objects then objects[first := Apply(kind, objects[first], p)] else objects;
      ApplyAllFrame(next, kind, items[1..], p, ref);
      var after := ApplyAll(objects, kind, items, p);
      if ref in objects && Targets(kind, items, ref) && !Targets(kind, items[1..], ref) {
        var i :| 0 <= i < |items| && RefOf(kind, items[i]) == ref;
        assert after[ref] == next[ref];
      }
      if ref in objects && !Targets(kind, items, ref) {
        assert ref != first;
      }
    }
  }

  /**
   * KickDeployments: on success, the i-th answered Deployment is the i-th input's and its
   * pod template carries the batch timestamp; every kicked Deployment in the store does too.
   */
  lemma {:induction false} KickDeploymentsStamps(objects: map<Ref, Object>, faults: map<Request, Error>, deployments: seq<Deployment>, ts: string)
    requires WellKeyed(objects)
    ensures var p := AnnotationPatch(TemplateAnnotations, ForceDeployAnnotation, ts);
      var outcome := PatchInOrder(objects, faults, DeploymentKind, deployments, p);
      outcome.0.Success? ==>
        && |outcome.0.value| == |deployments|
        && (forall i | 0 <= i < |deployments| ::
              && outcome.0.value[i].meta.name == deployments[i].meta.name
              && outcome.0.value[i].meta.namespace == deployments[i].meta.namespace
              && ForceDeployAnnotation in outcome.0.value[i].templateAnnotations
              && outcome.0.value[i].templateAnnotations[ForceDeployAnnotation] == ts)
        && (forall i | 0 <= i < |deployments| ::
              var ref := RefOf(DeploymentKind, deployments[i]);
              ref in outcome.1 && ForceDeployAnnotation in outcome.1[ref].templateAnnotations
              && outcome.1[ref].templateAnnotations[ForceDeployAnnotation] == ts)
  {
    var p := AnnotationPatch(TemplateAnnotations, ForceDeployAnnotation, ts);
    PatchInOrderSuccess(objects, faults, DeploymentKind, deployments, p);
    PatchInOrderSucceedsIff(objects, faults, DeploymentKind, deployments, p);
    forall i | 0 <= i < |deployments| && PatchInOrder(objects, faults, DeploymentKind, deployments, p).0.Success?
      ensures var ref := RefOf(DeploymentKind, deployments[i]);
        var after := ApplyAll(objects, DeploymentKind, deployments, p);
        ref in after && ForceDeployAnnotation in after[ref].templateAnnotations
          && after[ref].templateAnnotations[ForceDeployAnnotation] == ts
    {
      ApplyAllFrame(objects, DeploymentKind, deployments, p, RefOf(DeploymentKind, deployments[i]));
    }
  }

  /**
   * KickPods: on success, the i-th answered Pod is the i-th input's and carries the batch
   * timestamp in its own annotations; every kicked Pod in the store does too.
   */
  lemma {:induction false} KickPodsStamps(objects: map<Ref, Object>, faults: map<Request, Error>, pods: seq<Pod>, ts: string)
    requires WellKeyed(objects)
    ensures var p := AnnotationPatch(MetadataAnnotations, ForceDeployAnnotation, ts);
      var outcome := PatchInOrder(objects, faults, PodKind, pods, p);
      outcome.0.Success? ==>
        && |outcome.0.value| == |pods|
        && (forall i | 0 <= i < |pods| ::
              && outcome.0.value[i].meta.name == pods[i].meta.name
              && outcome.0.value[i].meta.namespace == pods[i].meta.namespace
              && ForceDeployAnnotation in outcome.0.value[i].meta.annotations
              && outcome.0.value[i].meta.annotations[ForceDeployAnnotation] == ts)
        && (forall i | 0 <= i < |pods| ::
              var ref := RefOf(PodKind, pods[i]);
              ref in outcome.1 && ForceDeployAnnotation in outcome.1[ref].meta.annotations
              && outcome.1[ref].meta.annotations[ForceDeployAnnotation] == ts)
  {
    var p := AnnotationPatch(MetadataAnnotations, ForceDeployAnnotation, ts);
    PatchInOrderSuccess(objects, faults, PodKind, pods, p);
    PatchInOrderSucceedsIff(objects, faults, PodKind, pods, p);
    forall i | 0 <= i < |pods| && PatchInOrder(objects, faults, PodKind, pods, p).0.Success?
      ensures var ref := RefOf(PodKind, pods[i]);
        var after := ApplyAll(objects, PodKind, pods, p);
        ref in after && ForceDeployAnnotation in after[ref].meta.annotations
          && after[ref].meta.annotations[ForceDeployAnnotation] == ts
    {
      ApplyAllFrame(objects, PodKind, pods, p, RefOf(PodKind, pods[i]));
    }
  }

  // ---------------------------------------------------------------- create or fetch

  /** The store's own "already exists" error is recognised by the text check. */
  lemma {:induction false} AlreadyExistsIsRecognised(ref: Ref)
    ensures SaysAlreadyExists(AlreadyExistsError(ref))
  {
    ContainsSuffix(AlreadyExistsPrefix(ref), "already exists");
  }

  /**
   * Create-or-fetch as DeployPod does it is idempotent: when the target namespace is set and
   * neither the create nor the get of the target is faulted, a first call succeeds with the
   * object stored at the target, and a second call answers the same object and changes nothing.
   */
  lemma {:induction false} CreateOrFetchIdempotent(objects: map<Ref, Object>, faults: map<Request, Error>, kind: Kind, o: Object, namespace: string)
    requires WellKeyed(objects)
    requires var ref := Ref(kind, TargetNamespace(o, namespace), o.meta.name);
      ref.namespace != "" && Request(CreateVerb, ref) !in faults && Request(GetVerb, ref) !in faults
    ensures var ref := Ref(kind, TargetNamespace(o, namespace), o.meta.name);
      var first := CreateOrFetch(objects, faults, kind, o, namespace);
      && first.0.Success?
      && ref in first.1 && first.1[ref] == first.0.value
      && first.0.value.meta.namespace == TargetNamespace(o, namespace)
      && CreateOrFetch(first.1, faults, kind, o, namespace) == first
  {
    var ref := Ref(kind, TargetNamespace(o, namespace), o.meta.name);
    AlreadyExistsIsRecognised(ref);
  }

  /**
   * Create-or-fetch, as DeployPod does it, surfaces every create error other than "already
   * exists" and leaves the store as it was.
   */
  lemma {:induction false} CreateOrFetchSurfacesErrors(objects: map<Ref, Object>, faults: map<Request, Error>, kind: Kind, o: Object, namespace: string)
    ensures var created := CreateIn(objects, faults, kind, TargetNamespace(o, namespace), o).0;
      created.Failure? && !SaysAlreadyExists(created.error) ==>
        CreateOrFetch(objects, faults, kind, o, namespace) == (Failure(created.error), objects)
  {
  }

  /**
   * CreateDeployment behaves like create-or-fetch for a Deployment with its namespace set:
   * the same store always, and the same answer whenever create-or-fetch succeeds or the
   * create error was "already exists" (then the fetch's error is passed on by both).
   */
  lemma {:induction false} CreateDeploymentWithNamespace(objects: map<Ref, Object>, faults: map<Request, Error>, d: Deployment, namespace: string)
    requires d.meta.namespace != ""
    ensures var asWritten := CreateOrFetchDeployment(objects, faults, d, namespace);
      var intended := CreateOrFetch(objects, faults, DeploymentKind, d, namespace);
      && asWritten.1 == intended.1
      && (intended.0.Success? ==> asWritten.0 == Success(Some(intended.0.value)))
      && (var created := CreateIn(objects, faults, DeploymentKind, d.meta.namespace, d).0;
          created.Failure? && SaysAlreadyExists(created.error) && intended.0.Failure? ==>
            asWritten.0 == Failure(intended.0.error))
  {
    var ref := Ref(DeploymentKind, d.meta.namespace, d.meta.name);
    AlreadyExistsIsRecognised(ref);
  }

  /**
   * Finding: a Deployment without a namespace of its own that already exists in the
   * namespace argument is not fetched: the fallback looks it up under the empty namespace
   * and fails with "not found", where create-or-fetch answers the existing Deployment.
   */
  lemma {:induction false} CreateDeploymentFetchesWrongNamespace(objects: map<Ref, Object>, faults: map<Request, Error>, d: Deployment, namespace: string)
    requires WellKeyed(objects)
    requires d.meta.namespace == "" && namespace != ""
    requires var ref := Ref(DeploymentKind, namespace, d.meta.name);
      ref in objects && Request(CreateVerb, ref) !in faults && Request(GetVerb, ref) !in faults
    requires Request(GetVerb, Ref(DeploymentKind, "", d.meta.name)) !in faults
    ensures CreateOrFetchDeployment(objects, faults, d, namespace).0
      == Failure(NotFoundError(Ref(DeploymentKind, "", d.meta.name)))
    ensures CreateOrFetch(objects, faults, DeploymentKind, d, namespace).0
      == Success(objects[Ref(DeploymentKind, namespace, d.meta.name)])
  {
    AlreadyExistsIsRecognised(Ref(DeploymentKind, namespace, d.meta.name));
  }

  /** The error a create gives when its deadline passes. */
  const DeadlineExceeded := Error(Other, "context deadline exceeded")

  /** The deadline error does not mention "already exists": it has no letter 'y'. */
  lemma {:induction false} DeadlineExceededIsNotAlreadyExists()
    ensures !SaysAlreadyExists(DeadlineExceeded)
  {
    var msg := DeadlineExceeded.message;
    assert forall i | 0 <= i < |msg| :: msg[i] != 'y';
    if Contains(msg, "already exists") {
      ContainsChar(msg, "already exists", 6);
    }
  }

  /**
   * Finding: a create that times out is reported as success with no Deployment, where
   * create-or-fetch surfaces the timeout.
   */
  lemma {:induction false} CreateDeploymentSwallowsTimeout(objects: map<Ref, Object>, faults: map<Request, Error>, d: Deployment, namespace: string)
    requires var ref := Ref(DeploymentKind, TargetNamespace(d, namespace), d.meta.name);
      Request(CreateVerb, ref) in faults && faults[Request(CreateVerb, ref)] == DeadlineExceeded
    ensures CreateOrFetchDeployment(objects, faults, d, namespace) == (Success(None), objects)
    ensures CreateOrFetch(objects, faults, DeploymentKind, d, namespace) == (Failure(DeadlineExceeded), objects)
  {
    DeadlineExceededIsNotAlreadyExists();
  }
}
