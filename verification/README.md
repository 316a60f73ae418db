# Cluster resource controller (clusterpedia `kubeapiserver`)

A Dafny model of clusterpedia's `ClusterResourceController`. The controller watches
`PediaCluster` objects. For each cluster it reduces the status report
(`Status.SyncResources`) to a `ResourceInfoMap`. That map is keyed by (API group,
resource name) and gives each resource's namespaced flag, its kind and the set of
versions it syncs. The controller remembers the last map it published for each cluster
in its `clusterresources` store. It republishes to the REST manager and the discovery
manager only when the map changes. When a cluster is deleted, or is updated while it is
terminating, the controller drops it from discovery and from the store.

Files:

- `wrappers.dfy`: `Option` (a Go nil pointer or nil map) and `Result` (a Go value-or-error return).
- `resources.dfy`, module `ClusterResources`:
  - the status types the controller reads, and `GroupResource`, `ResourceInfo` and `ResourceInfoMap`;
  - the extraction, specified as a pure function `Extract` (a left fold over the report's resource entries in visiting order);
  - the extraction as the controller runs it, with nested loops (`ExtractResources`, `RecordGroup`, `CollectVersions`), each proved equal to the specification;
  - lemmas saying exactly which keys and values the map holds.
- `controller.dfy`, module `Controller`:
  - the collaborators, observed as a log of calls (`Call`);
  - the discovery manager's per-cluster state, computed by replaying that log (`Published`);
  - the effect of `updateClusterResources`, `removeCluster` and the three event handlers, as pure state transitions (`AfterUpdate`, `AfterRemove`, `AfterEvent`, `AfterEvents`), with lemmas about them;
  - the class `ClusterResourceController`, whose methods mutate the store field and the call log and are proved to match those transitions and to keep the invariant `Consistent`.

Modelling choices:

- **Absent entry versus empty map.** In Go, indexing a map at a missing key gives a nil
  map, while the freshly built `resources` is never nil. `reflect.DeepEqual` tells nil
  and empty maps apart. `Lookup` returns `None` for a missing entry, and `DeepEqual`
  holds only for `Some` of an equal map. So a never-tracked cluster with nothing usable
  is still published and still gets an empty store entry.
- **A later duplicate key overwrites only if usable.** A resource with no sync
  conditions is skipped before its key is computed. A later duplicate with no
  conditions therefore leaves an earlier usable entry in place. `FoldLastWins` and
  `ExtractKeys` state this exactly.
- **Collaborators.**
  - `RESTManager.LoadResources` is the function-valued field `restManager`.
  - Every call is appended to the ghost field `calls` in the order the Go code makes it. The log exists only for the proofs; the Go struct has no such field.
  - The discovery manager is taken to start empty and to be driven only by this controller. `SetClusterGroupResource` replaces a cluster's entry and `RemoveCluster` drops it.
- **Deletion timestamp.** It is an `Option<nat>` counted from Go's zero time.
  `IsZero` holds for a nil pointer and for the zero time, as `metav1.Time.IsZero` does.
- **Delete events.** `DeleteFunc` gets the result of the key function
  (`cache.DeletionHandlingMetaNamespaceKeyFunc`) as its input: a name or an error.

Three behaviours of the code that the model keeps as they are:

- Only `UpdateFunc` checks `DeletionTimestamp`. `AddFunc` always runs the update, even
  for a cluster that is being deleted (`AddEventIgnoresDeletion`).
- A missing store entry is a nil map, and `reflect.DeepEqual` tells it apart from the
  non-nil `ResourceInfoMap{}` that the extraction builds. So the first update of a
  cluster always publishes (`UpdateUntrackedEmptyPublishesOnce`).
- Neither collaborator call has a failure path. The code makes both calls and then
  overwrites the store entry.

## Model

| member | source | states |
|---|---|---|
| ClusterResources.ExtractResources | pkg/kubeapiserver/clusterresource_controller.go:60-79 | the nested loops build exactly the map `Extract` specifies for the cluster's sync report |
| ClusterResources.RecordGroup | pkg/kubeapiserver/clusterresource_controller.go:62-78 | the inner loop records one group's resources, in order, into the map built so far: skipping those with no sync conditions and (over)writing the key of the others |
| ClusterResources.CollectVersions | pkg/kubeapiserver/clusterresource_controller.go:67-70 | inserting each condition's version into an empty set yields the set of distinct versions of the conditions |
| ClusterResources.FoldLastWins | pkg/kubeapiserver/clusterresource_controller.go:61-78 | a key is in the map iff some usable entry carries it, and its value is that of the last usable entry with that key; skipped entries neither add nor remove keys |
| ClusterResources.OccurrencesMembers | pkg/kubeapiserver/clusterresource_controller.go:61-62 | the entries visited are exactly the (group, resource) pairs of the report |
| ClusterResources.ExtractKeys | pkg/kubeapiserver/clusterresource_controller.go:63-73 | (group, name) is a key iff some resource of that name under that group has at least one sync condition; resources with no conditions contribute no key |
| ClusterResources.ExtractValues | pkg/kubeapiserver/clusterresource_controller.go:67-77 | every value is the namespaced flag, kind and version set of a usable resource listed under that key |
| ClusterResources.ExtractLastOccurrenceWins | pkg/kubeapiserver/clusterresource_controller.go:72-77 | when a key occurs more than once, the last usable occurrence in report order decides the value |
| ClusterResources.ExtractLastGroupOverwrites | pkg/kubeapiserver/clusterresource_controller.go:61-77 | in the last group of the report, a usable resource with no later usable resource of the same name in that group decides its key's value, whatever earlier groups said |
| ClusterResources.ExtractNothingUsable | pkg/kubeapiserver/clusterresource_controller.go:60-65 | a report with no sync conditions anywhere extracts to the empty (non-nil) map |
| ClusterResources.ExtractVersionsNonEmpty | pkg/kubeapiserver/clusterresource_controller.go:63-70 | every capability in the map lists at least one version |
| ClusterResources.VersionSetIgnoresOrder | pkg/kubeapiserver/clusterresource_controller.go:67-70 | sync conditions that are a permutation of each other give the same version set |
| ClusterResources.VersionSetCollapsesDuplicates | pkg/kubeapiserver/clusterresource_controller.go:67-70 | a repeated version adds nothing to the version set |
| ClusterResources.VersionSetBound | pkg/kubeapiserver/clusterresource_controller.go:67-70 | there are never more versions than sync conditions |
| Controller.UpdateUnchangedIsNoOp | pkg/kubeapiserver/clusterresource_controller.go:81-84 | if the new map equals the stored entry, no collaborator is called and the store is unchanged |
| Controller.UpdateChangedPublishes | pkg/kubeapiserver/clusterresource_controller.go:86-89 | otherwise LoadResources(new map), then SetClusterGroupResource(name, its result) are called, the entry becomes the new map, and every other entry is unchanged |
| Controller.UpdateUntrackedEmptyPublishesOnce | pkg/kubeapiserver/clusterresource_controller.go:81-89 | an untracked cluster with an empty extraction is published and gets an empty entry; a second empty extraction is then a no-op |
| Controller.UpdateIdempotent | pkg/kubeapiserver/clusterresource_controller.go:81-89 | handling the same cluster object twice has the effect of handling it once |
| Controller.RemoveUntrackedIsNoOp | pkg/kubeapiserver/clusterresource_controller.go:92-95 | removing a cluster with no store entry calls nothing and changes nothing |
| Controller.RemoveTrackedDeletesEntry | pkg/kubeapiserver/clusterresource_controller.go:97-98 | removing a tracked cluster calls RemoveCluster(name) exactly once and deletes only that entry |
| Controller.RemoveIdempotent | pkg/kubeapiserver/clusterresource_controller.go:92-99 | removing twice is the same as removing once |
| Controller.InitialConsistent | pkg/kubeapiserver/clusterresource_controller.go:26-32 | the empty store and empty call log satisfy the invariant |
| Controller.UpdatePreservesConsistent | pkg/kubeapiserver/clusterresource_controller.go:81-89 | an update keeps store keys equal to the published clusters, each published with what was loaded from its entry |
| Controller.RemovePreservesConsistent | pkg/kubeapiserver/clusterresource_controller.go:92-99 | a removal keeps the same invariant |
| Controller.EventPreservesConsistent | pkg/kubeapiserver/clusterresource_controller.go:34-55 | every handler keeps the invariant |
| Controller.EventsPreserveConsistent | pkg/kubeapiserver/clusterresource_controller.go:34-55 | after any sequence of events the store's key set equals the set of clusters held by the discovery manager |
| Controller.UpdateEventWhileDeletingRemoves | pkg/kubeapiserver/clusterresource_controller.go:38-43 | an update event with a non-zero deletion timestamp only removes the cluster, whatever its reported status |
| Controller.AddEventIgnoresDeletion | pkg/kubeapiserver/clusterresource_controller.go:35-37 | an add event always runs the update, deletion timestamp or not |
| Controller.DeleteEventKeyErrorIsNoOp | pkg/kubeapiserver/clusterresource_controller.go:47-51 | a delete event whose key function fails leaves all state unchanged |
| Controller.LifecycleSteps | pkg/kubeapiserver/clusterresource_controller.go:34-99 | add publishes; an identical resync calls nothing; a change to the empty map republishes; delete removes once; deleting an unknown cluster and a terminating update of an untracked one call nothing |
| Controller.LifecycleTrace | pkg/kubeapiserver/clusterresource_controller.go:34-99 | the same lifecycle on concrete clusters (apps/deployments at v1 and v1beta1) ends with an empty store and exactly five calls |
| Controller.ClusterResourceController.constructor | pkg/kubeapiserver/clusterresource_controller.go:25-32 | a new controller has an empty store, no calls made, and satisfies the invariant |
| Controller.ClusterResourceController.UpdateClusterResources | pkg/kubeapiserver/clusterresource_controller.go:59-90 | the store and call log change exactly as `AfterUpdate` says, and the invariant is kept |
| Controller.ClusterResourceController.RemoveCluster | pkg/kubeapiserver/clusterresource_controller.go:92-99 | the store and call log change exactly as `AfterRemove` says, and the invariant is kept |
| Controller.ClusterResourceController.OnAdd | pkg/kubeapiserver/clusterresource_controller.go:35-37 | the add handler changes state as `AfterEvent` of an add event |
| Controller.ClusterResourceController.OnUpdate | pkg/kubeapiserver/clusterresource_controller.go:38-46 | the update handler removes a terminating cluster and otherwise updates, as `AfterEvent` of an update event |
| Controller.ClusterResourceController.OnDelete | pkg/kubeapiserver/clusterresource_controller.go:47-54 | the delete handler does nothing on a key error and otherwise removes, as `AfterEvent` of a delete event |

## Left out

- Informer and lister wiring (`informer.Lister()`, `AddEventHandler`): the three handlers are methods called one at a time. The unused `clusterLister` field is not modelled.
- Concurrency: callbacks are taken to be delivered serially. The code has no locking.
- `RESTManager.LoadResources`: its code is not part of this model. It is a function of the capability map, and any effect it has on the REST manager's own state is not modelled.
- `discovery.DiscoveryManager`: its code is not part of this model. Only the calls made on it are recorded. Its state is taken to start empty and to be changed only by this controller.
- `cache.DeletionHandlingMetaNamespaceKeyFunc` is a library call. Its result (a name or an error) is the input of `OnDelete`.
- `reflect.DeepEqual` in general: structural equality on maps and sets replaces it, and the nil-versus-empty distinction is kept explicitly.
- Object metadata other than the name and the deletion timestamp, and sync-condition fields other than the version, are not read by the controller and are not modelled.
- Failure of a collaborator call: the code has no failure path, so none is modelled.
