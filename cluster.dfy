/**
 * The cluster as the repository sees it through its API client: a store of Pods,
 * ReplicaSets and Deployments addressed by kind, namespace and name, with get, list,
 * create and strategic-merge patch. Transport failures, timeouts and admission
 * rejections are arbitrary: the store carries a fault table, and every request listed
 * there fails with the listed error. All properties are stated for every fault table.
 */
module Cluster {
  import opened Wrappers

  datatype Kind = PodKind | ReplicaSetKind | DeploymentKind

  /** The kind as written in an owner reference. */
  function KindName(k: Kind): string {
    match k
    case PodKind => "Pod"
    case ReplicaSetKind => "ReplicaSet"
    case DeploymentKind => "Deployment"
  }

  /** The resource name the API server puts in its error messages. */
  function ResourceName(k: Kind): string {
    match k
    case PodKind => "pods"
    case ReplicaSetKind => "replicasets.apps"
    case DeploymentKind => "deployments.apps"
  }

  /** Whether objects of the kind have a pod template (spec.template). */
  predicate HasTemplate(k: Kind) {
    k != PodKind
  }

  /** A directed edge from an owned object to its owner, by kind and name. */
  datatype OwnerReference = OwnerReference(kind: string, name: string)

  datatype ObjectMeta = ObjectMeta(
    name: string,
    namespace: string,
    ownerReferences: seq<OwnerReference>,
    annotations: map<string, string>)

  /**
   * A stored object. `templateAnnotations` are the annotations of the pod template
   * (spec.template.metadata) of a ReplicaSet or Deployment; a Pod has no template.
   */
  datatype Object = Object(meta: ObjectMeta, templateAnnotations: map<string, string>)

  type Pod = Object
  type ReplicaSet = Object
  type Deployment = Object

  /** The address of an object: its kind, namespace and name. */
  datatype Ref = Ref(kind: Kind, namespace: string, name: string)

  function RefOf(kind: Kind, o: Object): Ref {
    Ref(kind, o.meta.namespace, o.meta.name)
  }

  datatype Verb = CreateVerb | GetVerb | ListVerb | PatchVerb

  /** A request to the store; a list request names no object and carries the name "". */
  datatype Request = Request(verb: Verb, target: Ref)

  datatype Reason = NotFound | AlreadyExists | Other

  /** An error with the reason of the API status and the text that `err.Error()` returns. */
  datatype Error = Error(reason: Reason, message: string)

  function NotFoundError(ref: Ref): Error {
    Error(NotFound, ResourceName(ref.kind) + " \"" + ref.name + "\" not found")
  }

  function AlreadyExistsPrefix(ref: Ref): string {
    ResourceName(ref.kind) + " \"" + ref.name + "\" "
  }

  function AlreadyExistsError(ref: Ref): Error {
    Error(AlreadyExists, AlreadyExistsPrefix(ref) + "already exists")
  }

  /** What the server answers to a create without a namespace for a namespaced kind. */
  const NoNamespaceError := Error(NotFound, "the server could not find the requested resource")

  /** Which annotations a patch writes: the object's own, or those of its pod template. */
  datatype PatchPath = MetadataAnnotations | TemplateAnnotations

  /** A strategic-merge patch that sets one annotation `key` to `value` at `path`. */
  datatype Patch = AnnotationPatch(path: PatchPath, key: string, value: string)

  /** The merge of a patch onto a live object: only the patched field path changes. */
  function Apply(kind: Kind, o: Object, p: Patch): Object {
    match p.path
    case MetadataAnnotations => o.(meta := o.meta.(annotations := o.meta.annotations[p.key := p.value]))
    case TemplateAnnotations =>
      if HasTemplate(kind) then o.(templateAnnotations := o.templateAnnotations[p.key := p.value]) else o
  }

  /** The object shows the annotation that the patch sets. */
  predicate Carries(kind: Kind, o: Object, p: Patch) {
    match p.path
    case MetadataAnnotations => p.key in o.meta.annotations && o.meta.annotations[p.key] == p.value
    case TemplateAnnotations =>
      HasTemplate(kind) ==> p.key in o.templateAnnotations && o.templateAnnotations[p.key] == p.value
  }

  /** Every object sits at its own kind, namespace and name, and no namespace is empty. */
  ghost predicate WellKeyed(objects: map<Ref, Object>) {
    forall r | r in objects ::
      r.namespace != "" && objects[r].meta.namespace == r.namespace && objects[r].meta.name == r.name
  }

  /** `order` lists every stored address exactly once. */
  ghost predicate Enumerates(order: seq<Ref>, objects: map<Ref, Object>) {
    && (forall i, j | 0 <= i < j < |order| :: order[i] != order[j])
    && (forall r :: r in objects <==> r in order)
  }

  function GetIn(objects: map<Ref, Object>, faults: map<Request, Error>, ref: Ref): Result<Object, Error> {
    if Request(GetVerb, ref) in faults then Failure(faults[Request(GetVerb, ref)])
    else if ref in objects then Success(objects[ref])
    else Failure(NotFoundError(ref))
  }

  /** An address that a list of `kind` in `namespace` covers ("" lists every namespace). */
  predicate Selected(ref: Ref, kind: Kind, namespace: string) {
    ref.kind == kind && (namespace == "" || ref.namespace == namespace)
  }

  function Listed(objects: map<Ref, Object>, order: seq<Ref>, kind: Kind, namespace: string): seq<Object>
    requires forall i | 0 <= i < |order| :: order[i] in objects
  {
    if order == [] then []
    else
      (if Selected(order[0], kind, namespace) then [objects[order[0]]] else [])
      + Listed(objects, order[1..], kind, namespace)
  }

  function ListIn(objects: map<Ref, Object>, order: seq<Ref>, faults: map<Request, Error>, kind: Kind, namespace: string)
    : Result<seq<Object>, Error>
    requires forall i | 0 <= i < |order| :: order[i] in objects
  {
    var req := Request(ListVerb, Ref(kind, namespace, ""));
    if req in faults then Failure(faults[req]) else Success(Listed(objects, order, kind, namespace))
  }

  /** Create: the stored object takes the request's namespace. */
  function CreateIn(objects: map<Ref, Object>, faults: map<Request, Error>, kind: Kind, namespace: string, o: Object)
    : (Result<Object, Error>, map<Ref, Object>)
  {
    var ref := Ref(kind, namespace, o.meta.name);
    if Request(CreateVerb, ref) in faults then (Failure(faults[Request(CreateVerb, ref)]), objects)
    else if namespace == "" then (Failure(NoNamespaceError), objects)
    else if ref in objects then (Failure(AlreadyExistsError(ref)), objects)
    else
      var stored := o.(meta := o.meta.(namespace := namespace));
      (Success(stored), objects[ref := stored])
  }

  /** Patch: merges the patch onto the live object and answers the merged object. */
  function PatchIn(objects: map<Ref, Object>, faults: map<Request, Error>, ref: Ref, p: Patch)
    : (Result<Object, Error>, map<Ref, Object>)
  {
    if Request(PatchVerb, ref) in faults then (Failure(faults[Request(PatchVerb, ref)]), objects)
    else if ref in objects then
      var patched := Apply(ref.kind, objects[ref], p);
      (Success(patched), objects[ref := patched])
    else (Failure(NotFoundError(ref)), objects)
  }

  /** Exactly the selected stored objects are listed. */
  lemma {:induction false} ListedExactly(objects: map<Ref, Object>, order: seq<Ref>, kind: Kind, namespace: string, o: Object)
    requires forall i | 0 <= i < |order| :: order[i] in objects
    ensures o in Listed(objects, order, kind, namespace)
        <==> exists i :: 0 <= i < |order| && Selected(order[i], kind, namespace) && objects[order[i]] == o
  {
    if order != [] {
      ListedExactly(objects, order[1..], kind, namespace, o);
      if exists i :: 0 <= i < |order| && Selected(order[i], kind, namespace) && objects[order[i]] == o {
        var i :| 0 <= i < |order| && Selected(order[i], kind, namespace) && objects[order[i]] == o;
        if i > 0 {
          assert order[1..][i - 1] == order[i];
        }
      }
      forall i | 0 <= i < |order| - 1 ensures order[1..][i] == order[i + 1] { }
    }
  }

  /** Every listed object is stored at a selected address of `order`. */
  ghost predicate ListsStored(objects: map<Ref, Object>, order: seq<Ref>, kind: Kind, namespace: string, listed: seq<Object>) {
    forall i | 0 <= i < |listed| ::
      RefOf(kind, listed[i]) in order && Selected(RefOf(kind, listed[i]), kind, namespace)
      && RefOf(kind, listed[i]) in objects && objects[RefOf(kind, listed[i])] == listed[i]
  }

  /** No address is listed twice. */
  ghost predicate ListsNoRepeat(kind: Kind, listed: seq<Object>) {
    forall i, j | 0 <= i < j < |listed| :: RefOf(kind, listed[i]) != RefOf(kind, listed[j])
  }

  /** Every selected address of `order` is listed. */
  ghost predicate ListsEvery(order: seq<Ref>, kind: Kind, namespace: string, listed: seq<Object>) {
    forall k | 0 <= k < |order| && Selected(order[k], kind, namespace) ::
      exists i :: 0 <= i < |listed| && RefOf(kind, listed[i]) == order[k]
  }

  /** The addresses of `order`, those of `kind` in `namespace`, are listed each once, with their objects. */
  ghost predicate ListsOnce(objects: map<Ref, Object>, order: seq<Ref>, kind: Kind, namespace: string, listed: seq<Object>) {
    ListsStored(objects, order, kind, namespace, listed) && ListsNoRepeat(kind, listed) && ListsEvery(order, kind, namespace, listed)
  }

  /** The object at the first address of `order`, when it is selected. */
  function ListedHead(objects: map<Ref, Object>, order: seq<Ref>, kind: Kind, namespace: string): seq<Object>
    requires order != [] && order[0] in objects
  {
    if Selected(order[0], kind, namespace) then [objects[order[0]]] else []
  }

  lemma {:induction false} ListsStoredCons(objects: map<Ref, Object>, order: seq<Ref>, kind: Kind, namespace: string, rest: seq<Object>)
    requires WellKeyed(objects) && order != [] && order[0] in objects
    requires ListsStored(objects, order[1..], kind, namespace, rest)
    ensures ListsStored(objects, order, kind, namespace, ListedHead(objects, order, kind, namespace) + rest)
  {
    var head := ListedHead(objects, order, kind, namespace);
    var listed := head + rest;
    forall i | 0 <= i < |listed|
      ensures RefOf(kind, listed[i]) in order && Selected(RefOf(kind, listed[i]), kind, namespace)
      ensures RefOf(kind, listed[i]) in objects && objects[RefOf(kind, listed[i])] == listed[i]
    {
      if i < |head| {
        assert RefOf(kind, listed[i]) == order[0];
      } else {
        assert listed[i] == rest[i - |head|];
        assert RefOf(kind, listed[i]) in order[1..];
      }
    }
  }

  lemma {:induction false} ListsNoRepeatCons(objects: map<Ref, Object>, order: seq<Ref>, kind: Kind, namespace: string, rest: seq<Object>)
    requires WellKeyed(objects) && order != [] && order[0] in objects && order[0] !in order[1..]
    requires ListsStored(objects, order[1..], kind, namespace, rest) && ListsNoRepeat(kind, rest)
    ensures ListsNoRepeat(kind, ListedHead(objects, order, kind, namespace) + rest)
  {
    var head := ListedHead(objects, order, kind, namespace);
    var listed := head + rest;
    forall i, j | 0 <= i < j < |listed| ensures RefOf(kind, listed[i]) != RefOf(kind, listed[j]) {
      assert listed[j] == rest[j - |head|];
      if i < |head| {
        assert RefOf(kind, listed[i]) == order[0];
        assert RefOf(kind, listed[j]) in order[1..];
      } else {
        assert listed[i] == rest[i - |head|];
      }
    }
  }

  lemma {:induction false} ListsEveryCons(objects: map<Ref, Object>, order: seq<Ref>, kind: Kind, namespace: string, rest: seq<Object>)
    requires WellKeyed(objects) && order != [] && order[0] in objects
    requires ListsEvery(order[1..], kind, namespace, rest)
    ensures ListsEvery(order, kind, namespace, ListedHead(objects, order, kind, namespace) + rest)
  {
    var head := ListedHead(objects, order, kind, namespace);
    var listed := head + rest;
    forall k | 0 <= k < |order| && Selected(order[k], kind, namespace)
      ensures exists i :: 0 <= i < |listed| && RefOf(kind, listed[i]) == order[k]
    {
      if k == 0 {
        assert RefOf(kind, listed[0]) == order[0];
      } else {
        assert order[k] == order[1..][k - 1];
        var i :| 0 <= i < |rest| && RefOf(kind, rest[i]) == order[1..][k - 1];
        assert RefOf(kind, listed[i + |head|]) == order[k];
      }
    }
  }

  /** Over a store whose order holds distinct stored addresses, a listing names each selected address once. */
  lemma {:induction false} ListedOnce(objects: map<Ref, Object>, order: seq<Ref>, kind: Kind, namespace: string)
    requires WellKeyed(objects)
    requires forall i | 0 <= i < |order| :: order[i] in objects
    requires forall i, j | 0 <= i < j < |order| :: order[i] != order[j]
    ensures ListsOnce(objects, order, kind, namespace, Listed(objects, order, kind, namespace))
  {
    if order != [] {
      forall i, j | 0 <= i < j < |order| - 1 ensures order[1..][i] != order[1..][j] {
        assert order[1..][i] == order[i + 1] && order[1..][j] == order[j + 1];
      }
      ListedOnce(objects, order[1..], kind, namespace);
      forall i | 0 <= i < |order[1..]| ensures order[1..][i] != order[0] {
        assert order[1..][i] == order[i + 1];
      }
      var rest := Listed(objects, order[1..], kind, namespace);
      assert Listed(objects, order, kind, namespace) == ListedHead(objects, order, kind, namespace) + rest;
      ListsStoredCons(objects, order, kind, namespace, rest);
      ListsNoRepeatCons(objects, order, kind, namespace, rest);
      ListsEveryCons(objects, order, kind, namespace, rest);
    }
  }

  /** The cluster store the repository's functions talk to. */
  class Store {
    var objects: map<Ref, Object>
    var order: seq<Ref>
    const faults: map<Request, Error>

    ghost predicate Valid()
      reads this
    {
      WellKeyed(objects) && Enumerates(order, objects)
    }

    constructor (faults: map<Request, Error>)
      ensures Valid() && objects == map[] && order == [] && this.faults == faults
    {
      objects := map[];
      order := [];
      this.faults := faults;
    }

    function Get(kind: Kind, namespace: string, name: string): Result<Object, Error>
      reads this
    {
      GetIn(objects, faults, Ref(kind, namespace, name))
    }

    function List(kind: Kind, namespace: string): Result<seq<Object>, Error>
      reads this
      requires Valid()
    {
      ListIn(objects, order, faults, kind, namespace)
    }

    method Create(kind: Kind, namespace: string, o: Object) returns (r: Result<Object, Error>)
      requires Valid()
      modifies this
      ensures Valid()
      ensures (r, objects) == CreateIn(old(objects), faults, kind, namespace, o)
      ensures order == old(order) + (if r.Success? then [Ref(kind, namespace, o.meta.name)] else [])
    {
      var outcome := CreateIn(objects, faults, kind, namespace, o);
      r := outcome.0;
      if r.Success? {
        order := order + [Ref(kind, namespace, o.meta.name)];
      }
      objects := outcome.1;
    }

    method Patch(kind: Kind, namespace: string, name: string, p: Patch) returns (r: Result<Object, Error>)
      requires Valid()
      modifies this
      ensures Valid()
      ensures (r, objects) == PatchIn(old(objects), faults, Ref(kind, namespace, name), p)
      ensures order == old(order)
    {
      var outcome := PatchIn(objects, faults, Ref(kind, namespace, name), p);
      r, objects := outcome.0, outcome.1;
    }
  }
}
