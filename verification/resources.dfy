/**
  Resource capability extraction: how the controller turns a cluster's reported
  `Status.SyncResources` into a `ResourceInfoMap`, keyed by (group, resource) and
  holding the resource's namespaced flag, kind and the set of versions it syncs.
*/
module ClusterResources {
  import opened Wrappers

  // ---------------------------------------------------------------------------
  // Input: the parts of a PediaCluster object the controller reads.
  // ---------------------------------------------------------------------------

  /** One per-version sync condition; only its version is read. */
  datatype ClusterResourceSyncCondition = ClusterResourceSyncCondition(version: string)

  datatype ClusterResourceStatus = ClusterResourceStatus(
    name: string,
    kind: string,
    namespaced: bool,
    syncConditions: seq<ClusterResourceSyncCondition>)

  datatype ClusterGroupResourcesStatus = ClusterGroupResourcesStatus(
    group: string,
    resources: seq<ClusterResourceStatus>)

  /**
    A cluster object: its name, its deletion timestamp (None is a nil pointer; an
    instant is counted from Go's zero time, so Some(0) is the zero time) and the
    sync report of its status.
  */
  datatype PediaCluster = PediaCluster(
    name: string,
    deletionTimestamp: Option<nat>,
    syncResources: seq<ClusterGroupResourcesStatus>)

  /** `DeletionTimestamp.IsZero()`: true for a nil pointer and for the zero time. */
  predicate IsZero(t: Option<nat>) {
    t.None? || t.value == 0
  }

  // ---------------------------------------------------------------------------
  // Output: the capability map.
  // ---------------------------------------------------------------------------

  datatype GroupResource = GroupResource(group: string, resource: string)

  datatype ResourceInfo = ResourceInfo(namespaced: bool, kind: string, versions: set<string>)

  type ResourceInfoMap = map<GroupResource, ResourceInfo>

  // ---------------------------------------------------------------------------
  // Specification of the extraction.
  // ---------------------------------------------------------------------------

  /** The distinct versions named by a list of sync conditions. */
  function VersionSet(conds: seq<ClusterResourceSyncCondition>): set<string> {
    set c | c in conds :: c.version
  }

  /** A resource entry together with the group it is listed under. */
  datatype Occurrence = Occurrence(group: string, resource: ClusterResourceStatus)

  function GroupOccurrences(g: ClusterGroupResourcesStatus): (os: seq<Occurrence>)
    ensures |os| == |g.resources|
    ensures forall j :: 0 <= j < |os| ==> os[j] == Occurrence(g.group, g.resources[j])
  {
    seq(|g.resources|, j requires 0 <= j < |g.resources| => Occurrence(g.group, g.resources[j]))
  }

  /** Every resource entry of the report, in the order the two nested loops visit them. */
  function Occurrences(groups: seq<ClusterGroupResourcesStatus>): seq<Occurrence> {
    if groups == [] then []
    else Occurrences(groups[..|groups| - 1]) + GroupOccurrences(groups[|groups| - 1])
  }

  /** A resource with at least one sync condition; the others are skipped. */
  predicate Usable(o: Occurrence) {
    |o.resource.syncConditions| > 0
  }

  function KeyOf(o: Occurrence): GroupResource {
    GroupResource(o.group, o.resource.name)
  }

  function InfoOf(o: Occurrence): ResourceInfo {
    ResourceInfo(o.resource.namespaced, o.resource.kind, VersionSet(o.resource.syncConditions))
  }

  /** One step of the inner loop: skip an unusable entry, otherwise (over)write its key. */
  function Record(m: ResourceInfoMap, o: Occurrence): ResourceInfoMap {
    if Usable(o) then m[KeyOf(o) := InfoOf(o)] else m
  }

  /** The map built by recording the entries one after the other, starting from an empty map. */
  function Fold(os: seq<Occurrence>): ResourceInfoMap {
    if os == [] then map[] else Record(Fold(os[..|os| - 1]), os[|os| - 1])
  }

  /** The capability map of a sync report. */
  function Extract(groups: seq<ClusterGroupResourcesStatus>): ResourceInfoMap {
    Fold(Occurrences(groups))
  }

  // ---------------------------------------------------------------------------
  // The extraction as the controller runs it: nested loops building maps and sets.
  // ---------------------------------------------------------------------------

  lemma FoldSnoc(os: seq<Occurrence>, o: Occurrence)
    ensures Fold(os + [o]) == Record(Fold(os), o)
  {
    assert (os + [o])[..|os|] == os;
  }

  lemma FoldStep(done: seq<Occurrence>, here: seq<Occurrence>, j: nat)
    requires j < |here|
    ensures Fold(done + here[..j + 1]) == Record(Fold(done + here[..j]), here[j])
  {
    assert done + here[..j + 1] == (done + here[..j]) + [here[j]];
    FoldSnoc(done + here[..j], here[j]);
  }

  lemma OccurrencesSnoc(groups: seq<ClusterGroupResourcesStatus>, i: nat)
    requires i < |groups|
    ensures Occurrences(groups[..i + 1]) == Occurrences(groups[..i]) + GroupOccurrences(groups[i])
  {
    assert groups[..i + 1][..i] == groups[..i];
  }

  /** The version set of one resource, built by inserting each condition's version. */
  method CollectVersions(conds: seq<ClusterResourceSyncCondition>) returns (versions: set<string>)
    ensures versions == VersionSet(conds)
  {
    versions := {};
    for k := 0 to |conds|
      invariant versions == VersionSet(conds[..k])
    {
      assert conds[..k + 1] == conds[..k] + [conds[k]];
      versions := versions + {conds[k].version};
    }
    assert conds[..|conds|] == conds;
  }

  /**
    The inner loop of the extraction: records one group's resources, in order, into
    the map built so far (`done` are the entries already recorded).
  */
  method RecordGroup(resources: ResourceInfoMap, g: ClusterGroupResourcesStatus, ghost done: seq<Occurrence>)
    returns (updated: ResourceInfoMap)
    requires resources == Fold(done)
    ensures updated == Fold(done + GroupOccurrences(g))
  {
    ghost var here := GroupOccurrences(g);
    assert done + here[..0] == done;
    updated := resources;
    for j := 0 to |g.resources|
      invariant updated == Fold(done + here[..j])
    {
      var r := g.resources[j];
      FoldStep(done, here, j);
      if |r.syncConditions| == 0 {
        continue;
      }
      var versions := CollectVersions(r.syncConditions);
      updated := updated[GroupResource(g.group, r.name) := ResourceInfo(r.namespaced, r.kind, versions)];
    }
    assert here[..|g.resources|] == here;
  }

  /** `updateClusterResources`' extraction: the capability map of a cluster's sync report. */
  method ExtractResources(cluster: PediaCluster) returns (resources: ResourceInfoMap)
    ensures resources == Extract(cluster.syncResources)
  {
    var groups := cluster.syncResources;
    resources := map[];
    for i := 0 to |groups|
      invariant resources == Fold(Occurrences(groups[..i]))
    {
      resources := RecordGroup(resources, groups[i], Occurrences(groups[..i]));
      OccurrencesSnoc(groups, i);
    }
    assert groups[..|groups|] == groups;
  }

  // ---------------------------------------------------------------------------
  // Properties of the extraction.
  // ---------------------------------------------------------------------------

  /** `p` is the last usable entry of `os` whose key is `k`. */
  ghost predicate LastFor(os: seq<Occurrence>, k: GroupResource, p: int) {
    && 0 <= p < |os|
    && Usable(os[p])
    && KeyOf(os[p]) == k
    && forall q :: p < q < |os| && Usable(os[q]) ==> KeyOf(os[q]) != k
  }

  /**
    The folded map holds a key exactly when some usable entry carries it, and then
    its value is the one of the last such entry: later entries overwrite earlier ones,
    and unusable entries neither add nor remove anything.
  */
  lemma {:induction false} FoldLastWins(os: seq<Occurrence>, k: GroupResource)
    ensures k in Fold(os) <==> exists p :: LastFor(os, k, p)
    ensures forall p :: LastFor(os, k, p) ==> Fold(os)[k] == InfoOf(os[p])
  {
    if os != [] {
      var n := |os| - 1;
      var pre := os[..n];
      FoldLastWins(pre, k);
      assert forall p :: 0 <= p < n ==> pre[p] == os[p];
      if Usable(os[n]) && KeyOf(os[n]) == k {
        assert LastFor(os, k, n);
        forall p | LastFor(os, k, p) ensures p == n {
        }
      } else {
        assert Fold(os) == Record(Fold(pre), os[n]);
        assert k in Fold(os) <==> k in Fold(pre);
        forall p | LastFor(os, k, p) ensures LastFor(pre, k, p) {
        }
        forall p | LastFor(pre, k, p) ensures LastFor(os, k, p) {
        }
      }
    }
  }

  /** The entries of a report are exactly its (group, resource) pairs. */
  lemma {:induction false} OccurrencesMembers(groups: seq<ClusterGroupResourcesStatus>, o: Occurrence)
    ensures o in Occurrences(groups) <==>
      exists i, j :: 0 <= i < |groups| && 0 <= j < |groups[i].resources| &&
        o == Occurrence(groups[i].group, groups[i].resources[j])
  {
    if groups != [] {
      var n := |groups| - 1;
      var pre := groups[..n];
      OccurrencesMembers(pre, o);
      assert forall i :: 0 <= i < n ==> pre[i] == groups[i];
      var here := GroupOccurrences(groups[n]);
      if o in here {
        var j :| 0 <= j < |here| && here[j] == o;
        assert o == Occurrence(groups[n].group, groups[n].resources[j]);
      } else if o in Occurrences(pre) {
        var i, j :| 0 <= i < n && 0 <= j < |pre[i].resources| && o == Occurrence(pre[i].group, pre[i].resources[j]);
        assert groups[i] == pre[i];
      } else {
        forall i, j | 0 <= i < |groups| && 0 <= j < |groups[i].resources|
          ensures o != Occurrence(groups[i].group, groups[i].resources[j])
        {
          if i == n {
            assert here[j] == Occurrence(groups[i].group, groups[i].resources[j]);
          } else {
            assert groups[i] == pre[i];
          }
        }
      }
    }
  }

  /**
    Keys: a (group, resource) key is in the capability map exactly when some resource
    listed under that group with that name has at least one sync condition. In
    particular a resource with no sync conditions contributes nothing.
  */
  lemma ExtractKeys(groups: seq<ClusterGroupResourcesStatus>, k: GroupResource)
    ensures k in Extract(groups) <==>
      exists i, j :: 0 <= i < |groups| && 0 <= j < |groups[i].resources| &&
        |groups[i].resources[j].syncConditions| > 0 &&
        GroupResource(groups[i].group, groups[i].resources[j].name) == k
  {
    var os := Occurrences(groups);
    FoldLastWins(os, k);
    if k in Extract(groups) {
      var p :| LastFor(os, k, p);
      OccurrencesMembers(groups, os[p]);
    } else {
      forall i, j | 0 <= i < |groups| && 0 <= j < |groups[i].resources| &&
          |groups[i].resources[j].syncConditions| > 0
        ensures GroupResource(groups[i].group, groups[i].resources[j].name) != k
      {
        var o := Occurrence(groups[i].group, groups[i].resources[j]);
        OccurrencesMembers(groups, o);
        var p :| 0 <= p < |os| && os[p] == o;
        if KeyOf(o) == k {
          // the last usable entry with key k at or after p is a witness
          LastExists(os, k, p);
        }
      }
    }
  }

  /** If entry `p` is usable with key `k`, then some entry at or after `p` is the last one for `k`. */
  lemma {:induction false} LastExists(os: seq<Occurrence>, k: GroupResource, p: int)
    requires 0 <= p < |os| && Usable(os[p]) && KeyOf(os[p]) == k
    ensures exists q :: p <= q && LastFor(os, k, q)
    decreases |os| - p
  {
    if !LastFor(os, k, p) {
      var q :| p < q < |os| && Usable(os[q]) && KeyOf(os[q]) == k;
      LastExists(os, k, q);
    }
  }

  /**
    Values: every entry of the capability map carries the namespaced flag, the kind and
    the version set of a usable resource listed under that key.
  */
  lemma ExtractValues(groups: seq<ClusterGroupResourcesStatus>, k: GroupResource)
    requires k in Extract(groups)
    ensures
      exists i, j :: 0 <= i < |groups| && 0 <= j < |groups[i].resources| &&
        (var r := groups[i].resources[j];
         |r.syncConditions| > 0 && GroupResource(groups[i].group, r.name) == k &&
         Extract(groups)[k] == ResourceInfo(r.namespaced, r.kind, VersionSet(r.syncConditions)))
  {
    var os := Occurrences(groups);
    FoldLastWins(os, k);
    var p :| LastFor(os, k, p);
    OccurrencesMembers(groups, os[p]);
  }

  /**
    Overwrite: when the same key occurs more than once, the last usable occurrence, in
    the order of the report, decides the value.
  */
  lemma ExtractLastOccurrenceWins(groups: seq<ClusterGroupResourcesStatus>, k: GroupResource, p: int)
    requires LastFor(Occurrences(groups), k, p)
    ensures k in Extract(groups) && Extract(groups)[k] == InfoOf(Occurrences(groups)[p])
  {
    FoldLastWins(Occurrences(groups), k);
  }

  /**
    Overwrite, stated on groups: a usable resource of the last group, with no usable
    resource after it of the same name, decides its key whatever the earlier groups say.
  */
  lemma ExtractLastGroupOverwrites(groups: seq<ClusterGroupResourcesStatus>, g: ClusterGroupResourcesStatus, j: int)
    requires 0 <= j < |g.resources| && |g.resources[j].syncConditions| > 0
    requires forall j' :: j < j' < |g.resources| && |g.resources[j'].syncConditions| > 0 ==>
      g.resources[j'].name != g.resources[j].name
    ensures var r := g.resources[j];
      var k := GroupResource(g.group, r.name);
      k in Extract(groups + [g]) &&
      Extract(groups + [g])[k] == ResourceInfo(r.namespaced, r.kind, VersionSet(r.syncConditions))
  {
    var all := groups + [g];
    assert all[..|groups|] == groups;
    var os := Occurrences(all);
    assert os == Occurrences(groups) + GroupOccurrences(g);
    var p := |Occurrences(groups)| + j;
    assert LastFor(os, GroupResource(g.group, g.resources[j].name), p) by {
      forall q | p < q < |os| && Usable(os[q])
        ensures KeyOf(os[q]) != KeyOf(os[p])
      {
        assert os[q] == GroupOccurrences(g)[q - |Occurrences(groups)|];
      }
    }
    ExtractLastOccurrenceWins(all, GroupResource(g.group, g.resources[j].name), p);
  }

  /** A report in which no resource has a sync condition extracts to the empty (non-nil) map. */
  lemma ExtractNothingUsable(groups: seq<ClusterGroupResourcesStatus>)
    requires forall i, j :: 0 <= i < |groups| && 0 <= j < |groups[i].resources| ==>
      groups[i].resources[j].syncConditions == []
    ensures Extract(groups) == map[]
  {
    forall k | k in Extract(groups) ensures false {
      ExtractKeys(groups, k);
    }
  }

  /** Every capability in the map lists at least one version. */
  lemma ExtractVersionsNonEmpty(groups: seq<ClusterGroupResourcesStatus>, k: GroupResource)
    requires k in Extract(groups)
    ensures Extract(groups)[k].versions != {}
  {
    ExtractValues(groups, k);
    var i, j :| 0 <= i < |groups| && 0 <= j < |groups[i].resources| &&
      (var r := groups[i].resources[j];
       |r.syncConditions| > 0 && GroupResource(groups[i].group, r.name) == k &&
       Extract(groups)[k] == ResourceInfo(r.namespaced, r.kind, VersionSet(r.syncConditions)));
    var r := groups[i].resources[j];
    assert r.syncConditions[0].version in VersionSet(r.syncConditions);
  }

  /** Versions ignore order: conditions that are a permutation of each other give the same set. */
  lemma VersionSetIgnoresOrder(a: seq<ClusterResourceSyncCondition>, b: seq<ClusterResourceSyncCondition>)
    requires multiset(a) == multiset(b)
    ensures VersionSet(a) == VersionSet(b)
  {
    forall c ensures c in a <==> c in b {
      assert c in a <==> c in multiset(a);
      assert c in b <==> c in multiset(b);
    }
  }

  /** Duplicate versions collapse: repeating a version already present adds nothing. */
  lemma VersionSetCollapsesDuplicates(conds: seq<ClusterResourceSyncCondition>, c: ClusterResourceSyncCondition)
    requires exists d :: d in conds && d.version == c.version
    ensures VersionSet(conds + [c]) == VersionSet(conds)
  {
  }

  /** There are never more versions than sync conditions. */
  lemma {:induction false} VersionSetBound(conds: seq<ClusterResourceSyncCondition>)
    ensures |VersionSet(conds)| <= |conds|
  {
    if conds != [] {
      var n := |conds| - 1;
      VersionSetBound(conds[..n]);
      assert conds == conds[..n] + [conds[n]];
      assert VersionSet(conds) == VersionSet(conds[..n]) + {conds[n].version};
    }
  }

  /** A report listing only apps/deployments (kind Deployment, namespaced) with the given sync conditions. */
  function Deployments(conds: seq<ClusterResourceSyncCondition>): seq<ClusterGroupResourcesStatus> {
    [ClusterGroupResourcesStatus("apps", [ClusterResourceStatus("deployments", "Deployment", true, conds)])]
  }

  /** A report with a single resource extracts to that resource's entry alone, if usable. */
  lemma ExtractSingle(group: string, r: ClusterResourceStatus)
    ensures Extract([ClusterGroupResourcesStatus(group, [r])]) == Record(map[], Occurrence(group, r))
  {
    var g := ClusterGroupResourcesStatus(group, [r]);
    var o := Occurrence(group, r);
    OccurrencesSnoc([g], 0);
    assert [g][..1] == [g] && [g][..0] == [];
    assert GroupOccurrences(g) == [o];
    FoldSnoc([], o);
    assert [] + [o] == [o];
  }

  /** The two reports of the trace below and their capability maps. */
  lemma ExtractDeployments(v1: ClusterResourceSyncCondition, v1beta1: ClusterResourceSyncCondition)
    requires v1.version == "v1" && v1beta1.version == "v1beta1"
    ensures Extract(Deployments([v1, v1beta1])) ==
      map[GroupResource("apps", "deployments") := ResourceInfo(true, "Deployment", {"v1", "v1beta1"})]
    ensures Extract(Deployments([])) == map[]
  {
    assert VersionSet([v1, v1beta1]) == {"v1", "v1beta1"};
    ExtractSingle("apps", ClusterResourceStatus("deployments", "Deployment", true, [v1, v1beta1]));
    ExtractSingle("apps", ClusterResourceStatus("deployments", "Deployment", true, []));
  }
}
