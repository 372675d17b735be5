/**
  How many applications and stage targets a caller may know point at each cluster,
  counted from the fleet snapshot's cluster postings.
*/
module ClusterReferences {
  import ClusterPaging

  type ClusterKey = (string, string)
  type AppId = (string, string)

  /** An application: its project and the cluster of each of its stage targets. */
  datatype Application = Application(project: string, targets: seq<ClusterKey>)

  datatype Snapshot = Snapshot(applications: map<AppId, Application>, byCluster: map<ClusterKey, set<AppId>>)

  datatype References = References(applications: nat, targets: nat)

  predicate Authorized(snapshot: Snapshot, projects: set<string>, id: AppId) {
    id in snapshot.applications && snapshot.applications[id].project in projects
  }

  /** The posted applications that exist and are authorized. */
  function Counted(snapshot: Snapshot, projects: set<string>, ids: set<AppId>): set<AppId> {
    set id | id in ids && Authorized(snapshot, projects, id)
  }

  /** The target slots of these applications that name the cluster. */
  function Slots(snapshot: Snapshot, ids: set<AppId>, key: ClusterKey): set<(AppId, nat)> {
    set id, i: nat | id in ids && id in snapshot.applications && i < |snapshot.applications[id].targets|
                     && snapshot.applications[id].targets[i] == key :: (id, i)
  }

  function ReferencesOf(snapshot: Snapshot, projects: set<string>, key: ClusterKey): References
    requires key in snapshot.byCluster
  {
    var ids := Counted(snapshot, projects, snapshot.byCluster[key]);
    References(|ids|, |Slots(snapshot, ids, key)|)
  }

  /** Clusters with at least one authorized application, and their counts. */
  function ReferenceMap(snapshot: Snapshot, projects: set<string>): map<ClusterKey, References> {
    map key | key in snapshot.byCluster && Counted(snapshot, projects, snapshot.byCluster[key]) != {} ::
      ReferencesOf(snapshot, projects, key)
  }

  function SlotsOfOne(targets: seq<ClusterKey>, id: AppId, key: ClusterKey, upTo: nat): set<(AppId, nat)>
    requires upTo <= |targets|
  {
    set i: nat | i < upTo && targets[i] == key :: (id, i)
  }

  /** The innermost loop: the slots of one application. */
  method CountTargets(targets: seq<ClusterKey>, id: AppId, key: ClusterKey) returns (n: nat)
    ensures n == |SlotsOfOne(targets, id, key, |targets|)|
  {
    n := 0;
    for i := 0 to |targets|
      invariant n == |SlotsOfOne(targets, id, key, i)|
    {
      assert SlotsOfOne(targets, id, key, i + 1) ==
             SlotsOfOne(targets, id, key, i) + if targets[i] == key then {(id, i)} else {};
      if targets[i] == key {
        n := n + 1;
      }
    }
  }

  lemma SlotsAdd(snapshot: Snapshot, ids: set<AppId>, id: AppId, key: ClusterKey)
    requires id !in ids && id in snapshot.applications
    ensures |Slots(snapshot, ids + {id}, key)| ==
            |Slots(snapshot, ids, key)| +
            |SlotsOfOne(snapshot.applications[id].targets, id, key, |snapshot.applications[id].targets|)|
  {
    var one := SlotsOfOne(snapshot.applications[id].targets, id, key, |snapshot.applications[id].targets|);
    assert Slots(snapshot, ids + {id}, key) == Slots(snapshot, ids, key) + one;
    assert Slots(snapshot, ids, key) !! one;
  }

  method CountCluster(snapshot: Snapshot, projects: set<string>, key: ClusterKey) returns (counted: References)
    requires key in snapshot.byCluster
    ensures counted == ReferencesOf(snapshot, projects, key)
  {
    var applications, targets := 0, 0;
    var todo := snapshot.byCluster[key];
    ghost var seen: set<AppId> := {};
    while todo != {}
      invariant seen == Counted(snapshot, projects, snapshot.byCluster[key] - todo)
      invariant todo <= snapshot.byCluster[key]
      invariant applications == |seen| && targets == |Slots(snapshot, seen, key)|
      decreases todo
    {
      var id :| id in todo;
      todo := todo - {id};
      if Authorized(snapshot, projects, id) {
        SlotsAdd(snapshot, seen, id, key);
        var own := CountTargets(snapshot.applications[id].targets, id, key);
        applications, targets, seen := applications + 1, targets + own, seen + {id};
      }
    }
    assert snapshot.byCluster[key] - todo == snapshot.byCluster[key];
    return References(applications, targets);
  }

  /** Walks the postings; the order in which a map is walked does not matter. */
  method AuthorizedClusterReferences(snapshot: Snapshot, projects: set<string>)
    returns (references: map<ClusterKey, References>)
    ensures references == ReferenceMap(snapshot, projects)
  {
    references := map[];
    var todo := snapshot.byCluster.Keys;
    while todo != {}
      invariant todo <= snapshot.byCluster.Keys
      invariant forall key :: key in references <==> key in ReferenceMap(snapshot, projects) && key !in todo
      invariant forall key | key in references :: references[key] == ReferencesOf(snapshot, projects, key)
      decreases todo
    {
      var key :| key in todo;
      var counted := CountCluster(snapshot, projects, key);
      if counted.applications > 0 {
        references := references[key := counted];
      }
      todo := todo - {key};
    }
  }

  // ---------------------------------------------------------------- what the counts mean

  predicate Targets(snapshot: Snapshot, id: AppId, key: ClusterKey) {
    id in snapshot.applications && key in snapshot.applications[id].targets
  }

  /** The postings list exactly the applications that target the cluster. */
  ghost predicate IndexAgrees(snapshot: Snapshot) {
    forall key: ClusterKey, id: AppId ::
      (key in snapshot.byCluster && id in snapshot.byCluster[key]) <==> Targets(snapshot, id, key)
  }

  /** The applications of the caller's projects that target a cluster, read off the applications
      alone. */
  function Reaching(snapshot: Snapshot, projects: set<string>, key: ClusterKey): set<AppId> {
    set id | id in snapshot.applications && snapshot.applications[id].project in projects
             && key in snapshot.applications[id].targets
  }

  /** Their target slots that name the cluster. */
  function ReachingSlots(snapshot: Snapshot, projects: set<string>, key: ClusterKey): set<(AppId, nat)> {
    set id, i: nat | id in snapshot.applications && snapshot.applications[id].project in projects
                     && i < |snapshot.applications[id].targets| && snapshot.applications[id].targets[i] == key :: (id, i)
  }

  /** When the index agrees with the targets, the counts taken from the postings are the
      counts over the authorized applications, and a cluster is listed exactly when one of
      them targets it. */
  lemma CountsMatchApplications(snapshot: Snapshot, projects: set<string>, key: ClusterKey)
    requires IndexAgrees(snapshot)
    ensures key in ReferenceMap(snapshot, projects) <==> Reaching(snapshot, projects, key) != {}
    ensures key in ReferenceMap(snapshot, projects) ==>
      ReferenceMap(snapshot, projects)[key] ==
      References(|Reaching(snapshot, projects, key)|, |ReachingSlots(snapshot, projects, key)|)
  {
    var reaching := Reaching(snapshot, projects, key);
    if key in snapshot.byCluster {
      var ids := Counted(snapshot, projects, snapshot.byCluster[key]);
      assert forall id :: id in ids <==> id in reaching;
      assert ids == reaching;
      assert Slots(snapshot, ids, key) == ReachingSlots(snapshot, projects, key);
    } else {
      assert forall id | id in reaching :: Targets(snapshot, id, key);
      assert reaching == {};
    }
  }

  predicate Posted(snapshot: Snapshot, key: ClusterKey, id: AppId) {
    key in snapshot.byCluster && id in snapshot.byCluster[key]
  }

  /** Everything either snapshot says about applications of the caller's projects, their
      postings included, the other one says too. */
  ghost predicate TellsAll(a: Snapshot, b: Snapshot, projects: set<string>) {
    forall id | id in a.applications && a.applications[id].project in projects ::
      && id in b.applications && b.applications[id] == a.applications[id]
      && forall key: ClusterKey :: Posted(a, key, id) <==> Posted(b, key, id)
  }

  /** The two snapshots differ in applications of other projects, and in postings of these, only. */
  ghost predicate SameToCaller(a: Snapshot, b: Snapshot, projects: set<string>) {
    TellsAll(a, b, projects) && TellsAll(b, a, projects)
  }

  lemma SameReferences(a: Snapshot, b: Snapshot, projects: set<string>, key: ClusterKey)
    requires SameToCaller(a, b, projects) && key in ReferenceMap(a, projects)
    ensures key in ReferenceMap(b, projects) && ReferenceMap(a, projects)[key] == ReferenceMap(b, projects)[key]
  {
    var ids := Counted(a, projects, a.byCluster[key]);
    var known :| known in ids;
    assert Posted(a, key, known) && Posted(b, key, known);
    var ids' := Counted(b, projects, b.byCluster[key]);
    forall id ensures id in ids <==> id in ids' {
      assert Authorized(a, projects, id) || Authorized(b, projects, id) ==> (Posted(a, key, id) <==> Posted(b, key, id));
    }
    assert ids == ids';
    assert Slots(a, ids, key) == Slots(b, ids, key);
  }

  /** Applications a caller may not read leave no trace: neither in any count nor in any page
      of clusters, whether or not the index agrees with the applications. */
  lemma HiddenApplicationsLeaveNoTrace(
      a: Snapshot, b: Snapshot, projects: set<string>,
      items: seq<ClusterPaging.Cluster>, everything: bool, cursor: string, pageSize: nat)
    requires SameToCaller(a, b, projects) && pageSize >= 1
    ensures ReferenceMap(a, projects) == ReferenceMap(b, projects)
    ensures
      ClusterPaging.Page(ClusterPaging.Sort(ClusterPaging.Filter(items, ReferenceMap(a, projects).Keys, everything)), cursor, pageSize)
      == ClusterPaging.Page(ClusterPaging.Sort(ClusterPaging.Filter(items, ReferenceMap(b, projects).Keys, everything)), cursor, pageSize)
  {
    forall key | key in ReferenceMap(a, projects)
      ensures key in ReferenceMap(b, projects) && ReferenceMap(a, projects)[key] == ReferenceMap(b, projects)[key]
    {
      SameReferences(a, b, projects, key);
    }
    forall key | key in ReferenceMap(b, projects) ensures key in ReferenceMap(a, projects) {
      SameReferences(b, a, projects, key);
    }
  }

  /** When both indexes agree with their targets the postings need not be compared. */
  lemma AgreeingIndexesLookAlike(a: Snapshot, b: Snapshot, projects: set<string>)
    requires IndexAgrees(a) && IndexAgrees(b)
    requires forall id | id in a.applications && a.applications[id].project in projects ::
               id in b.applications && b.applications[id] == a.applications[id]
    requires forall id | id in b.applications && b.applications[id].project in projects ::
               id in a.applications && a.applications[id] == b.applications[id]
    ensures SameToCaller(a, b, projects)
  {
    AgreeingIndexTellsAll(a, b, projects);
    AgreeingIndexTellsAll(b, a, projects);
  }

  lemma AgreeingIndexTellsAll(a: Snapshot, b: Snapshot, projects: set<string>)
    requires IndexAgrees(a) && IndexAgrees(b)
    requires forall id | id in a.applications && a.applications[id].project in projects ::
               id in b.applications && b.applications[id] == a.applications[id]
    ensures TellsAll(a, b, projects)
  {
    forall id, key: ClusterKey | id in a.applications && a.applications[id].project in projects
      ensures Posted(a, key, id) <==> Posted(b, key, id)
    {
      assert Targets(a, id, key) <==> Targets(b, id, key);
    }
  }
}
