/**
  The cluster resource controller: it keeps, per cluster, the capability map it last
  published, and republishes a cluster to the REST manager and the discovery manager
  only when that map changes.

  The two collaborators are observed through the log of calls made on them. The
  REST manager's `LoadResources` is a function the controller is given; the
  discovery manager's state is the replay of the log (`Published`).
*/
module Controller {
  import opened Wrappers
  import opened ClusterResources

  /** A call made on a collaborator. */
  datatype Call<Apis> =
    | LoadResources(resources: ResourceInfoMap)              // restManager.LoadResources
    | SetClusterGroupResource(cluster: string, apis: Apis)  // discoveryManager.SetClusterGroupResource
    | RemoveCluster(cluster: string)                        // discoveryManager.RemoveCluster

  /** The discovery manager's effect of one call: set replaces an entry, remove drops it. */
  function ApplyCall<Apis>(published: map<string, Apis>, c: Call<Apis>): map<string, Apis> {
    match c
    case LoadResources(_) => published
    case SetClusterGroupResource(cluster, apis) => published[cluster := apis]
    case RemoveCluster(cluster) => published - {cluster}
  }

  /** The per-cluster state the discovery manager holds after a log of calls, starting from nothing. */
  function Published<Apis>(calls: seq<Call<Apis>>): map<string, Apis> {
    if calls == [] then map[] else ApplyCall(Published(calls[..|calls| - 1]), calls[|calls| - 1])
  }

  lemma PublishedSnoc<Apis>(calls: seq<Call<Apis>>, c: Call<Apis>)
    ensures Published(calls + [c]) == ApplyCall(Published(calls), c)
  {
    assert (calls + [c])[..|calls|] == calls;
  }

  /** The controller's store (`clusterresources`) and the calls it has made so far. */
  datatype State<Apis> = State(clusterResources: map<string, ResourceInfoMap>, calls: seq<Call<Apis>>)

  function Initial<Apis>(): State<Apis> {
    State(map[], [])
  }

  /** Indexing a Go map at a missing key yields a nil map, written None here. */
  function Lookup(store: map<string, ResourceInfoMap>, name: string): Option<ResourceInfoMap> {
    if name in store then Some(store[name]) else None
  }

  /**
    `reflect.DeepEqual` between a freshly built map (never nil) and the stored one:
    a nil map differs from every non-nil map, the empty one included.
  */
  predicate DeepEqual(resources: ResourceInfoMap, current: Option<ResourceInfoMap>) {
    current == Some(resources)
  }

  /** The state after `updateClusterResources(cluster)`. */
  function AfterUpdate<Apis>(load: ResourceInfoMap -> Apis, s: State<Apis>, cluster: PediaCluster): State<Apis> {
    var resources := Extract(cluster.syncResources);
    if DeepEqual(resources, Lookup(s.clusterResources, cluster.name)) then s
    else
      State(s.clusterResources[cluster.name := resources],
            s.calls + [LoadResources(resources), SetClusterGroupResource(cluster.name, load(resources))])
  }

  /** The state after `removeCluster(name)`. */
  function AfterRemove<Apis>(s: State<Apis>, name: string): State<Apis> {
    if name !in s.clusterResources then s
    else State(s.clusterResources - {name}, s.calls + [RemoveCluster(name)])
  }

  /**
    A lifecycle event as the informer delivers it. A deletion carries the result of
    the key function applied to the deleted object: a name, or an error.
  */
  datatype Event =
    | Added(cluster: PediaCluster)
    | Updated(oldCluster: PediaCluster, cluster: PediaCluster)
    | Deleted(key: Result<string, string>)

  /** The state after the handler registered for the event has run. */
  function AfterEvent<Apis>(load: ResourceInfoMap -> Apis, s: State<Apis>, e: Event): State<Apis> {
    match e
    case Added(cluster) => AfterUpdate(load, s, cluster)
    case Updated(_, cluster) =>
      if !IsZero(cluster.deletionTimestamp) then AfterRemove(s, cluster.name)
      else AfterUpdate(load, s, cluster)
    case Deleted(key) =>
      match key
      case Failure(_) => s
      case Success(name) => AfterRemove(s, name)
  }

  /** The state after a sequence of events delivered one at a time. */
  function AfterEvents<Apis>(load: ResourceInfoMap -> Apis, s: State<Apis>, events: seq<Event>): State<Apis>
    decreases |events|
  {
    if events == [] then s else AfterEvents(load, AfterEvent(load, s, events[0]), events[1..])
  }

  /**
    The controller's invariant: a cluster has a store entry exactly when the discovery
    manager holds it, and what it holds is what the REST manager loaded from the entry.
  */
  ghost predicate Consistent<Apis>(load: ResourceInfoMap -> Apis, s: State<Apis>) {
    && s.clusterResources.Keys == Published(s.calls).Keys
    && forall name :: name in s.clusterResources ==> Published(s.calls)[name] == load(s.clusterResources[name])
  }

  // ---------------------------------------------------------------------------
  // Change detection and publish.
  // ---------------------------------------------------------------------------

  /** No-op when unchanged: neither collaborator is called and the store is kept. */
  lemma UpdateUnchangedIsNoOp<Apis>(load: ResourceInfoMap -> Apis, s: State<Apis>, cluster: PediaCluster)
    requires cluster.name in s.clusterResources
    requires s.clusterResources[cluster.name] == Extract(cluster.syncResources)
    ensures AfterUpdate(load, s, cluster) == s
  {
  }

  /**
    Publish when changed: LoadResources on the new map, then SetClusterGroupResource with
    its result, then the store entry is overwritten; no other cluster's entry changes.
  */
  lemma UpdateChangedPublishes<Apis>(load: ResourceInfoMap -> Apis, s: State<Apis>, cluster: PediaCluster)
    requires cluster.name !in s.clusterResources || s.clusterResources[cluster.name] != Extract(cluster.syncResources)
    ensures var resources := Extract(cluster.syncResources);
      var t := AfterUpdate(load, s, cluster);
      && t.calls == s.calls + [LoadResources(resources), SetClusterGroupResource(cluster.name, load(resources))]
      && Lookup(t.clusterResources, cluster.name) == Some(resources)
      && forall name :: name != cluster.name ==> Lookup(t.clusterResources, name) == Lookup(s.clusterResources, name)
  {
  }

  /**
    Nil versus empty: a never-tracked cluster with nothing usable is still published and
    gets an empty entry; a second update that again extracts nothing is then a no-op.
  */
  lemma UpdateUntrackedEmptyPublishesOnce<Apis>(
    load: ResourceInfoMap -> Apis, s: State<Apis>, cluster: PediaCluster, later: PediaCluster)
    requires cluster.name !in s.clusterResources
    requires Extract(cluster.syncResources) == map[]
    requires later.name == cluster.name && Extract(later.syncResources) == map[]
    ensures var t := AfterUpdate(load, s, cluster);
      && t.calls == s.calls + [LoadResources(map[]), SetClusterGroupResource(cluster.name, load(map[]))]
      && t.clusterResources == s.clusterResources[cluster.name := map[]]
      && AfterUpdate(load, t, later) == t
  {
  }

  /** Updating twice with the same cluster object is the same as updating once. */
  lemma UpdateIdempotent<Apis>(load: ResourceInfoMap -> Apis, s: State<Apis>, cluster: PediaCluster)
    ensures AfterUpdate(load, AfterUpdate(load, s, cluster), cluster) == AfterUpdate(load, s, cluster)
  {
  }

  // ---------------------------------------------------------------------------
  // Removal.
  // ---------------------------------------------------------------------------

  /** Removing an untracked cluster calls nothing and changes nothing. */
  lemma RemoveUntrackedIsNoOp<Apis>(s: State<Apis>, name: string)
    requires name !in s.clusterResources
    ensures AfterRemove(s, name) == s
  {
  }

  /** Removing a tracked cluster calls RemoveCluster once and deletes only its entry. */
  lemma RemoveTrackedDeletesEntry<Apis>(s: State<Apis>, name: string)
    requires name in s.clusterResources
    ensures var t := AfterRemove(s, name);
      && t.calls == s.calls + [RemoveCluster(name)]
      && name !in t.clusterResources
      && forall other :: other != name ==> Lookup(t.clusterResources, other) == Lookup(s.clusterResources, other)
  {
  }

  /** Removal is idempotent: the second removal calls nothing. */
  lemma RemoveIdempotent<Apis>(s: State<Apis>, name: string)
    ensures AfterRemove(AfterRemove(s, name), name) == AfterRemove(s, name)
  {
  }

  // ---------------------------------------------------------------------------
  // The invariant: store keys are the clusters published to discovery.
  // ---------------------------------------------------------------------------

  lemma InitialConsistent<Apis>(load: ResourceInfoMap -> Apis)
    ensures Consistent(load, Initial<Apis>())
  {
  }

  lemma UpdatePreservesConsistent<Apis>(load: ResourceInfoMap -> Apis, s: State<Apis>, cluster: PediaCluster)
    requires Consistent(load, s)
    ensures Consistent(load, AfterUpdate(load, s, cluster))
  {
    var resources := Extract(cluster.syncResources);
    if !DeepEqual(resources, Lookup(s.clusterResources, cluster.name)) {
      var withLoad := s.calls + [LoadResources(resources)];
      PublishedSnoc(s.calls, LoadResources(resources));
      PublishedSnoc(withLoad, SetClusterGroupResource(cluster.name, load(resources)));
      assert withLoad + [SetClusterGroupResource(cluster.name, load(resources))] ==
        s.calls + [LoadResources(resources), SetClusterGroupResource(cluster.name, load(resources))];
    }
  }

  lemma RemovePreservesConsistent<Apis>(load: ResourceInfoMap -> Apis, s: State<Apis>, name: string)
    requires Consistent(load, s)
    ensures Consistent(load, AfterRemove(s, name))
  {
    if name in s.clusterResources {
      PublishedSnoc(s.calls, RemoveCluster(name));
    }
  }

  lemma EventPreservesConsistent<Apis>(load: ResourceInfoMap -> Apis, s: State<Apis>, e: Event)
    requires Consistent(load, s)
    ensures Consistent(load, AfterEvent(load, s, e))
  {
    match e
    case Added(cluster) => UpdatePreservesConsistent(load, s, cluster);
    case Updated(_, cluster) =>
      RemovePreservesConsistent(load, s, cluster.name);
      UpdatePreservesConsistent(load, s, cluster);
    case Deleted(key) =>
      if key.Success? {
        RemovePreservesConsistent(load, s, key.value);
      }
  }

  /**
    Whatever events arrive, in whatever order, the set of clusters in the store equals
    the set of clusters the discovery manager holds, each with what was loaded for it.
  */
  lemma {:induction false} EventsPreserveConsistent<Apis>(load: ResourceInfoMap -> Apis, s: State<Apis>, events: seq<Event>)
    requires Consistent(load, s)
    ensures Consistent(load, AfterEvents(load, s, events))
    ensures AfterEvents(load, s, events).clusterResources.Keys == Published(AfterEvents(load, s, events).calls).Keys
    decreases |events|
  {
    if events != [] {
      EventPreservesConsistent(load, s, events[0]);
      EventsPreserveConsistent(load, AfterEvent(load, s, events[0]), events[1..]);
    }
  }

  // ---------------------------------------------------------------------------
  // Event dispatch.
  // ---------------------------------------------------------------------------

  /**
    An update event for a cluster being deleted only removes it: the reported status is
    never looked at.
  */
  lemma UpdateEventWhileDeletingRemoves<Apis>(
    load: ResourceInfoMap -> Apis, s: State<Apis>, oldCluster: PediaCluster, cluster: PediaCluster,
    status: seq<ClusterGroupResourcesStatus>)
    requires !IsZero(cluster.deletionTimestamp)
    ensures AfterEvent(load, s, Updated(oldCluster, cluster)) == AfterRemove(s, cluster.name)
    ensures AfterEvent(load, s, Updated(oldCluster, cluster)) ==
      AfterEvent(load, s, Updated(oldCluster, cluster.(syncResources := status)))
  {
  }

  /** An add event always runs the update, even for a cluster that is being deleted. */
  lemma AddEventIgnoresDeletion<Apis>(load: ResourceInfoMap -> Apis, s: State<Apis>, cluster: PediaCluster)
    ensures AfterEvent(load, s, Added(cluster)) == AfterUpdate(load, s, cluster)
  {
  }

  /** A delete event whose key cannot be computed leaves everything as it was. */
  lemma DeleteEventKeyErrorIsNoOp<Apis>(load: ResourceInfoMap -> Apis, s: State<Apis>, err: string)
    ensures AfterEvent(load, s, Deleted(Failure(err))) == s
  {
  }

  // ---------------------------------------------------------------------------
  // A worked trace.
  // ---------------------------------------------------------------------------

  lemma AfterEventsCons<Apis>(load: ResourceInfoMap -> Apis, s: State<Apis>, e: Event, rest: seq<Event>)
    ensures AfterEvents(load, s, [e] + rest) == AfterEvents(load, AfterEvent(load, s, e), rest)
  {
    assert ([e] + rest)[1..] == rest;
  }

  /**
    The lifecycle of one cluster: published when added, untouched by an identical resync,
    republished when its map changes (here to the empty map), removed once when deleted;
    deleting an unknown cluster, and a terminating update of an untracked one, call nothing.
  */
  lemma LifecycleSteps<Apis>(
    load: ResourceInfoMap -> Apis, c1: PediaCluster, c1Empty: PediaCluster, c2: string, c3: PediaCluster)
    requires IsZero(c1.deletionTimestamp) && IsZero(c1Empty.deletionTimestamp) && c1Empty.name == c1.name
    requires Extract(c1.syncResources) != map[] && Extract(c1Empty.syncResources) == map[]
    requires !IsZero(c3.deletionTimestamp)
    ensures var m := Extract(c1.syncResources);
      AfterEvents(load, Initial(), [Added(c1), Updated(c1, c1), Updated(c1, c1Empty), Deleted(Success(c1.name)),
                                    Deleted(Success(c2)), Updated(c3, c3)]) ==
        State(map[], [LoadResources(m), SetClusterGroupResource(c1.name, load(m)),
                      LoadResources(map[]), SetClusterGroupResource(c1.name, load(map[])),
                      RemoveCluster(c1.name)])
  {
    var m := Extract(c1.syncResources);
    var s1 := State(map[c1.name := m], [LoadResources(m), SetClusterGroupResource(c1.name, load(m))]);
    var s3 := State(map[c1.name := map[]], s1.calls + [LoadResources(map[]), SetClusterGroupResource(c1.name, load(map[]))]);
    var s4 := State(map[], s3.calls + [RemoveCluster(c1.name)]);
    assert AfterEvent(load, Initial(), Added(c1)) == s1;
    assert AfterEvent(load, s1, Updated(c1, c1)) == s1;
    assert AfterEvent(load, s1, Updated(c1, c1Empty)) == s3;
    assert AfterEvent(load, s3, Deleted(Success(c1.name))) == s4;
    assert AfterEvent(load, s4, Deleted(Success(c2))) == s4;
    assert AfterEvent(load, s4, Updated(c3, c3)) == s4;
    AfterEventsCons(load, s4, Updated(c3, c3), []);
    AfterEventsCons(load, s4, Deleted(Success(c2)), [Updated(c3, c3)]);
    AfterEventsCons(load, s3, Deleted(Success(c1.name)), [Deleted(Success(c2)), Updated(c3, c3)]);
    AfterEventsCons(load, s1, Updated(c1, c1Empty), [Deleted(Success(c1.name)), Deleted(Success(c2)), Updated(c3, c3)]);
    AfterEventsCons(load, s1, Updated(c1, c1), [Updated(c1, c1Empty), Deleted(Success(c1.name)), Deleted(Success(c2)), Updated(c3, c3)]);
    AfterEventsCons(load, Initial(), Added(c1), [Updated(c1, c1), Updated(c1, c1Empty), Deleted(Success(c1.name)), Deleted(Success(c2)), Updated(c3, c3)]);
  }

  /**
    The same lifecycle on concrete clusters: c1 syncs apps/deployments (Deployment,
    namespaced) at v1 and v1beta1, later with no sync conditions; c2 is unknown; c3
    arrives terminating with a non-empty report.
  */
  lemma LifecycleTrace<Apis>(load: ResourceInfoMap -> Apis)
    ensures var v1 := ClusterResourceSyncCondition("v1");
      var v1beta1 := ClusterResourceSyncCondition("v1beta1");
      var c1 := PediaCluster("c1", None, Deployments([v1, v1beta1]));
      var c1Empty := PediaCluster("c1", None, Deployments([]));
      var c3 := PediaCluster("c3", Some(5), Deployments([v1]));
      var m := map[GroupResource("apps", "deployments") := ResourceInfo(true, "Deployment", {"v1", "v1beta1"})];
      AfterEvents(load, Initial(), [Added(c1), Updated(c1, c1), Updated(c1, c1Empty), Deleted(Success("c1")),
                                    Deleted(Success("c2")), Updated(c3, c3)]) ==
        State(map[], [LoadResources(m), SetClusterGroupResource("c1", load(m)),
                      LoadResources(map[]), SetClusterGroupResource("c1", load(map[])),
                      RemoveCluster("c1")])
  {
    var v1 := ClusterResourceSyncCondition("v1");
    var v1beta1 := ClusterResourceSyncCondition("v1beta1");
    ExtractDeployments(v1, v1beta1);
    var m := map[GroupResource("apps", "deployments") := ResourceInfo(true, "Deployment", {"v1", "v1beta1"})];
    assert GroupResource("apps", "deployments") in m;
    LifecycleSteps(load, PediaCluster("c1", None, Deployments([v1, v1beta1])), PediaCluster("c1", None, Deployments([])),
                   "c2", PediaCluster("c3", Some(5), Deployments([v1])));
  }

  // ---------------------------------------------------------------------------
  // The controller object.
  // ---------------------------------------------------------------------------

  class ClusterResourceController<Apis> {
    /** `restManager.LoadResources`, as a function of the capability map. */
    const restManager: ResourceInfoMap -> Apis
    var clusterResources: map<string, ResourceInfoMap>
    /** Calls made on the REST manager and the discovery manager, oldest first. */
    ghost var calls: seq<Call<Apis>>

    ghost function Snapshot(): State<Apis>
      reads this
    {
      State(clusterResources, calls)
    }

    ghost predicate Valid()
      reads this
    {
      Consistent(restManager, Snapshot())
    }

    constructor (restManager: ResourceInfoMap -> Apis)
      ensures Valid() && this.restManager == restManager
      ensures Snapshot() == Initial()
    {
      this.restManager := restManager;
      clusterResources := map[];
      calls := [];
    }

    method UpdateClusterResources(cluster: PediaCluster)
      requires Valid()
      modifies this
      ensures Valid()
      ensures Snapshot() == AfterUpdate(restManager, old(Snapshot()), cluster)
    {
      UpdatePreservesConsistent(restManager, Snapshot(), cluster);
      var resources := ExtractResources(cluster);
      var currentResources := Lookup(clusterResources, cluster.name);
      if DeepEqual(resources, currentResources) {
        return;
      }
      var discoveryApis := restManager(resources);
      calls := calls + [LoadResources(resources), SetClusterGroupResource(cluster.name, discoveryApis)];
      clusterResources := clusterResources[cluster.name := resources];
    }

    method RemoveCluster(name: string)
      requires Valid()
      modifies this
      ensures Valid()
      ensures Snapshot() == AfterRemove(old(Snapshot()), name)
    {
      RemovePreservesConsistent(restManager, Snapshot(), name);
      if name !in clusterResources {
        return;
      }
      calls := calls + [Call.RemoveCluster(name)];
      clusterResources := clusterResources - {name};
    }

    /** The informer's AddFunc. */
    method OnAdd(cluster: PediaCluster)
      requires Valid()
      modifies this
      ensures Valid()
      ensures Snapshot() == AfterEvent(restManager, old(Snapshot()), Added(cluster))
    {
      UpdateClusterResources(cluster);
    }

    /** The informer's UpdateFunc. */
    method OnUpdate(oldCluster: PediaCluster, cluster: PediaCluster)
      requires Valid()
      modifies this
      ensures Valid()
      ensures Snapshot() == AfterEvent(restManager, old(Snapshot()), Updated(oldCluster, cluster))
    {
      if !IsZero(cluster.deletionTimestamp) {
        RemoveCluster(cluster.name);
        return;
      }
      UpdateClusterResources(cluster);
    }

    /** The informer's DeleteFunc, given what the key function returned for the object. */
    method OnDelete(key: Result<string, string>)
      requires Valid()
      modifies this
      ensures Valid()
      ensures Snapshot() == AfterEvent(restManager, old(Snapshot()), Deleted(key))
    {
      if key.Failure? {
        return;
      }
      RemoveCluster(key.value);
    }
  }
}
