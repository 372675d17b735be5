/**
  The cluster board's keyset pagination: sort by (namespace, name), seek past the cursor
  with a binary search, serve a page, and name its last cluster in the next cursor.
*/
module ClusterPaging {
  import opened Common

  /** A registered cluster: its identity and everything a page shows about it. */
  datatype Cluster = Cluster(namespace: string, name: string, body: string)

  // ---------------------------------------------------------------- orders

  /** Go's string order. For UTF-8 text comparing bytes and comparing code points agree. */
  predicate Less(a: string, b: string) {
    if b == "" then false
    else if a == "" then true
    else if a[0] != b[0] then a[0] < b[0]
    else Less(a[1..], b[1..])
  }

  lemma {:induction false} LessIsStrictOrder(a: string, b: string, c: string)
    ensures !Less(a, a)
    ensures Less(a, b) ==> !Less(b, a)
    ensures Less(a, b) || Less(b, a) || a == b
    ensures Less(a, b) && Less(b, c) ==> Less(a, c)
    decreases |a|
  {
    if a != "" {
      LessIsStrictOrder(a[1..], if b == "" then "" else b[1..], if c == "" then "" else c[1..]);
      assert a == [a[0]] + a[1..];
      assert b != "" ==> b == [b[0]] + b[1..];
    }
  }

  /** The texts agree before position `k`, where `a` has the smaller character. */
  ghost predicate SmallerAt(a: string, b: string, k: nat) {
    k < |a| && k < |b| && a[..k] == b[..k] && a[k] < b[k]
  }

  lemma SmallerAtShift(a: string, b: string, k: nat)
    requires a != "" && b != "" && a[0] == b[0]
    ensures SmallerAt(a[1..], b[1..], k) <==> SmallerAt(a, b, k + 1)
  {
    if k + 1 < |a| && k + 1 < |b| {
      assert a[..k + 1] == [a[0]] + a[1..][..k] && b[..k + 1] == [b[0]] + b[1..][..k];
      assert a[1..][..k] == a[..k + 1][1..] && b[1..][..k] == b[..k + 1][1..];
    }
  }

  lemma SmallerAtHead(a: string, b: string, k: nat)
    requires a != "" && b != "" && SmallerAt(a, b, k)
    ensures k == 0 ==> a[0] < b[0]
    ensures k > 0 ==> a[0] == b[0]
  {
    if k > 0 {
      assert a[0] == a[..k][0] && b[0] == b[..k][0];
    }
  }

  /** Dictionary order: a proper prefix comes first, and otherwise the first difference decides. */
  lemma {:induction false} LessIsDictionaryOrder(a: string, b: string)
    ensures Less(a, b) <==> (a <= b && a != b) || exists k: nat :: SmallerAt(a, b, k)
  {
    if a != "" && b != "" {
      if Less(a, b) && a[0] != b[0] {
        assert SmallerAt(a, b, 0);
      }
      if a[0] == b[0] {
        LessIsDictionaryOrder(a[1..], b[1..]);
        assert a == [a[0]] + a[1..] && b == [b[0]] + b[1..];
        if k: nat :| SmallerAt(a[1..], b[1..], k) {
          SmallerAtShift(a, b, k);
        }
      }
      if k: nat :| SmallerAt(a, b, k) {
        SmallerAtHead(a, b, k);
        if k > 0 {
          SmallerAtShift(a, b, k - 1);
        }
      }
    }
  }

  /** Whether `cluster` comes strictly after the identity a cursor names. */
  predicate SortsAfter(cluster: Cluster, namespace: string, name: string) {
    if cluster.namespace != namespace then Less(namespace, cluster.namespace)
    else Less(name, cluster.name)
  }

  predicate Before(a: Cluster, b: Cluster) {
    SortsAfter(b, a.namespace, a.name)
  }

  /** The seek order is the sort order: by namespace, and by name within a namespace. */
  lemma BeforeIsNamespaceThenName(a: Cluster, b: Cluster)
    ensures Before(a, b) <==>
      Less(a.namespace, b.namespace) || (a.namespace == b.namespace && Less(a.name, b.name))
  {
    LessIsStrictOrder(a.namespace, b.namespace, "");
    LessIsStrictOrder(b.namespace, a.namespace, "");
  }

  predicate SameIdentity(a: Cluster, b: Cluster) {
    a.namespace == b.namespace && a.name == b.name
  }

  lemma BeforeIsStrictOrder(a: Cluster, b: Cluster, c: Cluster)
    ensures !Before(a, a)
    ensures Before(a, b) ==> !Before(b, a) && !SameIdentity(a, b)
    ensures Before(a, b) || Before(b, a) || SameIdentity(a, b)
    ensures Before(a, b) && Before(b, c) ==> Before(a, c)
  {
    LessIsStrictOrder(a.namespace, b.namespace, c.namespace);
    LessIsStrictOrder(a.name, b.name, c.name);
    LessIsStrictOrder(b.namespace, a.namespace, c.namespace);
    LessIsStrictOrder(b.namespace, c.namespace, a.namespace);
  }

  /** A list that is strictly increasing in (namespace, name). */
  ghost predicate Sorted(clusters: seq<Cluster>) {
    forall i, j | 0 <= i < j < |clusters| :: Before(clusters[i], clusters[j])
  }

  lemma SortedByNamespaceThenName(clusters: seq<Cluster>)
    requires Sorted(clusters)
    ensures forall i, j | 0 <= i < j < |clusters| ::
      || Less(clusters[i].namespace, clusters[j].namespace)
      || (clusters[i].namespace == clusters[j].namespace && Less(clusters[i].name, clusters[j].name))
  {
    forall i, j | 0 <= i < j < |clusters|
      ensures || Less(clusters[i].namespace, clusters[j].namespace)
              || (clusters[i].namespace == clusters[j].namespace && Less(clusters[i].name, clusters[j].name))
    {
      BeforeIsNamespaceThenName(clusters[i], clusters[j]);
    }
  }

  // ---------------------------------------------------------------- the visible inventory

  ghost predicate DistinctIdentities(clusters: seq<Cluster>) {
    forall i, j | 0 <= i < j < |clusters| :: !SameIdentity(clusters[i], clusters[j])
  }

  /** The list a caller may see: authorized clusters, or all of them. */
  predicate Visible(cluster: Cluster, referenced: set<(string, string)>, includeUnreferenced: bool) {
    (cluster.namespace, cluster.name) in referenced || includeUnreferenced
  }

  function Filter(clusters: seq<Cluster>, referenced: set<(string, string)>, includeUnreferenced: bool): seq<Cluster> {
    if clusters == [] then []
    else
      var last := clusters[|clusters| - 1];
      Filter(clusters[..|clusters| - 1], referenced, includeUnreferenced)
      + (if Visible(last, referenced, includeUnreferenced) then [last] else [])
  }

  function Insert(cluster: Cluster, sorted: seq<Cluster>): seq<Cluster> {
    if sorted == [] || Before(cluster, sorted[0]) then [cluster] + sorted
    else [sorted[0]] + Insert(cluster, sorted[1..])
  }

  /** Stands for the library sort; `SortIsUnique` shows that any sort gives the same list. */
  function Sort(clusters: seq<Cluster>): seq<Cluster> {
    if clusters == [] then []
    else Insert(clusters[0], Sort(clusters[1..]))
  }

  lemma {:induction false} InsertMultiset(cluster: Cluster, sorted: seq<Cluster>)
    ensures multiset(Insert(cluster, sorted)) == multiset(sorted) + multiset{cluster}
  {
    if !(sorted == [] || Before(cluster, sorted[0])) {
      InsertMultiset(cluster, sorted[1..]);
      assert sorted == [sorted[0]] + sorted[1..];
    }
  }

  lemma {:induction false} InsertSorted(cluster: Cluster, sorted: seq<Cluster>)
    requires Sorted(sorted) && forall c | c in sorted :: !SameIdentity(c, cluster)
    ensures Sorted(Insert(cluster, sorted))
  {
    if sorted == [] {
    } else if Before(cluster, sorted[0]) {
      forall j | 0 <= j < |sorted| ensures Before(cluster, sorted[j]) {
        BeforeIsStrictOrder(cluster, sorted[0], sorted[j]);
      }
    } else {
      var rest := Insert(cluster, sorted[1..]);
      InsertSorted(cluster, sorted[1..]);
      InsertMultiset(cluster, sorted[1..]);
      BeforeIsStrictOrder(sorted[0], cluster, cluster);
      assert sorted[0] in sorted;
      forall j | 0 <= j < |rest| ensures Before(sorted[0], rest[j]) {
        assert rest[j] in multiset(rest);
        if rest[j] != cluster {
          assert rest[j] in sorted[1..];
          var k :| 1 <= k < |sorted| && sorted[k] == rest[j];
        }
      }
    }
  }

  lemma {:induction false} SortIsSortedPermutation(clusters: seq<Cluster>)
    requires DistinctIdentities(clusters)
    ensures Sorted(Sort(clusters)) && multiset(Sort(clusters)) == multiset(clusters)
  {
    if clusters != [] {
      var rest := Sort(clusters[1..]);
      SortIsSortedPermutation(clusters[1..]);
      forall c | c in rest ensures !SameIdentity(c, clusters[0]) {
        assert c in multiset(rest);
        assert c in clusters[1..];
      }
      InsertSorted(clusters[0], rest);
      InsertMultiset(clusters[0], rest);
      assert clusters == [clusters[0]] + clusters[1..];
    }
  }

  /** Sorted lists of the same clusters start with the same one. */
  lemma HeadsAgree(a: seq<Cluster>, b: seq<Cluster>)
    requires Sorted(a) && Sorted(b) && multiset(a) == multiset(b) && a != [] && b != []
    ensures a[0] == b[0]
  {
    assert a[0] in multiset(b) && b[0] in multiset(a);
    var i :| 0 <= i < |b| && b[i] == a[0];
    var j :| 0 <= j < |a| && a[j] == b[0];
    assert i > 0 ==> Before(b[0], b[i]);
    assert j > 0 ==> Before(a[0], a[j]);
    BeforeIsStrictOrder(a[0], b[0], a[0]);
  }

  /** There is only one way to sort clusters of distinct identity, so the unstable library
      sort leaves nothing to chance. */
  lemma {:induction false} SortIsUnique(a: seq<Cluster>, b: seq<Cluster>)
    requires Sorted(a) && Sorted(b) && multiset(a) == multiset(b)
    ensures a == b
  {
    assert |multiset(a)| == |multiset(b)|;
    if a != [] {
      HeadsAgree(a, b);
      assert a == [a[0]] + a[1..] && b == [b[0]] + b[1..];
      assert multiset(a[1..]) == multiset(a) - multiset{a[0]};
      assert multiset(b[1..]) == multiset(b) - multiset{b[0]};
      SortIsUnique(a[1..], b[1..]);
    }
  }

  lemma {:induction false} FilterMembers(clusters: seq<Cluster>, referenced: set<(string, string)>, everything: bool)
    ensures forall c :: c in Filter(clusters, referenced, everything) <==>
                        c in clusters && Visible(c, referenced, everything)
  {
    if clusters != [] {
      var front := clusters[..|clusters| - 1];
      FilterMembers(front, referenced, everything);
      assert clusters == front + [clusters[|clusters| - 1]];
    }
  }

  lemma {:induction false} FilterDistinct(clusters: seq<Cluster>, referenced: set<(string, string)>, everything: bool)
    requires DistinctIdentities(clusters)
    ensures DistinctIdentities(Filter(clusters, referenced, everything))
  {
    if clusters != [] {
      var front, last := clusters[..|clusters| - 1], clusters[|clusters| - 1];
      FilterDistinct(front, referenced, everything);
      FilterMembers(front, referenced, everything);
      var kept := Filter(front, referenced, everything);
      forall i | 0 <= i < |kept| ensures !SameIdentity(kept[i], last) {
        assert kept[i] in kept;
        var k :| 0 <= k < |front| && front[k] == kept[i];
        assert clusters[k] == kept[i];
      }
    }
  }

  /** Collects what the caller may see and sorts it. The API server never lists two objects
      with one identity. */
  method ListAuthorizedClusters(items: seq<Cluster>, referenced: set<(string, string)>, includeUnreferenced: bool)
    returns (visible: seq<Cluster>)
    requires DistinctIdentities(items)
    ensures Sorted(visible)
    ensures forall i, j | 0 <= i < j < |visible| ::
      || Less(visible[i].namespace, visible[j].namespace)
      || (visible[i].namespace == visible[j].namespace && Less(visible[i].name, visible[j].name))
    ensures forall c :: c in visible <==>
      c in items && ((c.namespace, c.name) in referenced || includeUnreferenced)
  {
    visible := [];
    for i := 0 to |items|
      invariant visible == Filter(items[..i], referenced, includeUnreferenced)
    {
      assert items[..i + 1][..i] == items[..i];
      if Visible(items[i], referenced, includeUnreferenced) {
        visible := visible + [items[i]];
      }
    }
    assert items[..|items|] == items;
    FilterMembers(items, referenced, includeUnreferenced);
    FilterDistinct(items, referenced, includeUnreferenced);
    SortIsSortedPermutation(visible);
    ghost var collected := visible;
    visible := Sort(visible);
    forall c ensures c in visible <==> c in collected {
      assert c in multiset(visible) <==> c in multiset(collected);
    }
    SortedByNamespaceThenName(visible);
  }

  // ---------------------------------------------------------------- seeking

  /** The index a linear scan would stop at. */
  function FirstAfter(clusters: seq<Cluster>, namespace: string, name: string): (i: nat)
    ensures i <= |clusters|
    ensures forall k | 0 <= k < i :: !SortsAfter(clusters[k], namespace, name)
    ensures i < |clusters| ==> SortsAfter(clusters[i], namespace, name)
  {
    if clusters == [] || SortsAfter(clusters[0], namespace, name) then 0
    else FirstAfter(clusters[1..], namespace, name) + 1
  }

  lemma {:induction false} FirstAfterUnique(clusters: seq<Cluster>, namespace: string, name: string, i: nat)
    requires i <= |clusters| && forall k | 0 <= k < i :: !SortsAfter(clusters[k], namespace, name)
    requires i < |clusters| ==> SortsAfter(clusters[i], namespace, name)
    ensures FirstAfter(clusters, namespace, name) == i
  {
    if i > 0 {
      FirstAfterUnique(clusters[1..], namespace, name, i - 1);
    }
  }

  /** On a sorted list the seek predicate is false up to a point and true from there on. */
  lemma SeekIsMonotone(clusters: seq<Cluster>, namespace: string, name: string, i: nat, j: nat)
    requires Sorted(clusters) && i <= j < |clusters|
    ensures SortsAfter(clusters[i], namespace, name) ==> SortsAfter(clusters[j], namespace, name)
  {
    if i < j {
      BeforeIsStrictOrder(Cluster(namespace, name, ""), clusters[i], clusters[j]);
    }
  }

  /** The binary search finds what the linear scan finds. */
  method Search(clusters: seq<Cluster>, namespace: string, name: string) returns (i: nat)
    requires Sorted(clusters)
    ensures i == FirstAfter(clusters, namespace, name)
  {
    var low, high := 0, |clusters|;
    while low < high
      invariant 0 <= low <= high <= |clusters|
      invariant forall k | 0 <= k < low :: !SortsAfter(clusters[k], namespace, name)
      invariant forall k | high <= k < |clusters| :: SortsAfter(clusters[k], namespace, name)
    {
      var middle := (low + high) / 2;
      if !SortsAfter(clusters[middle], namespace, name) {
        forall k | low <= k <= middle ensures !SortsAfter(clusters[k], namespace, name) {
          SeekIsMonotone(clusters, namespace, name, k, middle);
        }
        low := middle + 1;
      } else {
        forall k | middle <= k < high ensures SortsAfter(clusters[k], namespace, name) {
          SeekIsMonotone(clusters, namespace, name, middle, k);
        }
        high := middle;
      }
    }
    FirstAfterUnique(clusters, namespace, name, low);
    return low;
  }

  // ---------------------------------------------------------------- pages

  function Cursor(cluster: Cluster): string {
    cluster.namespace + "/" + cluster.name
  }

  /** Where a page starts: at the beginning, or just past the identity the cursor names. */
  function Start(clusters: seq<Cluster>, cursor: string): (i: nat)
    ensures i <= |clusters|
  {
    if cursor == "" then 0
    else
      var (namespace, name, _) := Cut(cursor, '/');
      FirstAfter(clusters, namespace, name)
  }

  /** The page that starts here, and the cursor to resume with. */
  function PageFrom(clusters: seq<Cluster>, start: nat, pageSize: nat): (seq<Cluster>, string)
    requires pageSize >= 1 && start <= |clusters|
  {
    var end := start + pageSize;
    if end >= |clusters| then (clusters[start..], "")
    else (clusters[start..end], Cursor(clusters[end - 1]))
  }

  function Page(clusters: seq<Cluster>, cursor: string, pageSize: nat): (seq<Cluster>, string)
    requires pageSize >= 1
  {
    PageFrom(clusters, Start(clusters, cursor), pageSize)
  }

  method PageClusters(clusters: seq<Cluster>, cursor: string, pageSize: nat)
    returns (page: seq<Cluster>, nextCursor: string)
    requires Sorted(clusters) && pageSize >= 1
    ensures (page, nextCursor) == Page(clusters, cursor, pageSize)
    ensures |page| <= pageSize && (nextCursor != "" ==> |page| == pageSize)
  {
    var start := 0;
    if cursor != "" {
      var (namespace, name, _) := Cut(cursor, '/');
      start := Search(clusters, namespace, name);
    }
    var end := start + pageSize;
    if end >= |clusters| {
      return clusters[start..], "";
    }
    return clusters[start..end], Cursor(clusters[end - 1]);
  }

  /** Cutting a printed cursor gives back the identity exactly when the namespace has no slash. */
  lemma CursorRoundTrip(cluster: Cluster)
    ensures Cut(Cursor(cluster), '/') == (cluster.namespace, cluster.name, true) <==> '/' !in cluster.namespace
  {
    assert Cursor(cluster) == cluster.namespace + ['/'] + cluster.name;
    CutJoined(cluster.namespace, '/', cluster.name);
  }

  /** Comparing joined cursors would disagree with the sort: '-' sorts before '/'. */
  lemma JoinedOrderDisagrees()
    ensures Before(Cluster("tenant", "a", ""), Cluster("tenant-b", "a", ""))
    ensures Less(Cursor(Cluster("tenant-b", "a", "")), Cursor(Cluster("tenant", "a", "")))
  {
    var prefix := "tenant";
    assert Cursor(Cluster("tenant-b", "a", "")) == prefix + "-b/a";
    assert Cursor(Cluster("tenant", "a", "")) == prefix + "/a";
    assert "tenant-b" == prefix + "-b" && "tenant" == prefix + "";
    LessAfterPrefix(prefix, "-b/a", "/a");
    LessAfterPrefix(prefix, "", "-b");
  }

  lemma {:induction false} LessAfterPrefix(prefix: string, a: string, b: string)
    ensures Less(prefix + a, prefix + b) <==> Less(a, b)
  {
    if prefix == "" {
      assert prefix + a == a && prefix + b == b;
    } else {
      assert (prefix + a)[1..] == prefix[1..] + a && (prefix + b)[1..] == prefix[1..] + b;
      LessAfterPrefix(prefix[1..], a, b);
    }
  }
}
