/** Walking the cluster board page by page while clusters come and go. */
module ClusterWalk {
  import opened ClusterPaging

  /** One request of a walk: the inventory at that moment and the page size asked for. */
  datatype Request = Request(inventory: seq<Cluster>, pageSize: nat)

  /** Kubernetes namespaces hold no slash. */
  ghost predicate SlashFree(clusters: seq<Cluster>) {
    forall c | c in clusters :: '/' !in c.namespace
  }

  ghost predicate Proper(request: Request) {
    Sorted(request.inventory) && SlashFree(request.inventory) && request.pageSize >= 1
  }

  /** The requests of one walk in order: each resumes with the cursor the last one returned,
      and the caller stops at the first empty cursor. */
  ghost predicate Walk(requests: seq<Request>, pages: seq<seq<Cluster>>, cursors: seq<string>) {
    && |pages| == |requests| && |cursors| == |requests| + 1 && cursors[0] == ""
    && (forall k | 0 <= k < |requests| :: Answered(requests, pages, cursors, k))
    && (forall k | 0 < k < |requests| :: cursors[k] != "")
  }

  ghost predicate Answered(requests: seq<Request>, pages: seq<seq<Cluster>>, cursors: seq<string>, k: nat)
    requires |pages| == |requests| && |cursors| == |requests| + 1 && k < |requests|
  {
    && Proper(requests[k])
    && (pages[k], cursors[k + 1]) == Page(requests[k].inventory, cursors[k], requests[k].pageSize)
  }

  function Flatten(pages: seq<seq<Cluster>>): seq<Cluster> {
    if pages == [] then []
    else Flatten(pages[..|pages| - 1]) + pages[|pages| - 1]
  }

  function Last(clusters: seq<Cluster>): Cluster
    requires clusters != []
  {
    clusters[|clusters| - 1]
  }

  /** The cursor stands for everything served so far. */
  ghost predicate Resumes(served: seq<Cluster>, cursor: string) {
    if served == [] then cursor == ""
    else cursor == Cursor(Last(served)) && '/' !in Last(served).namespace
  }

  /** `c` sorts after everything served so far. */
  ghost predicate Ahead(served: seq<Cluster>, c: Cluster) {
    served == [] || Before(Last(served), c)
  }

  ghost predicate Shown(clusters: seq<Cluster>, c: Cluster) {
    exists i :: 0 <= i < |clusters| && SameIdentity(clusters[i], c)
  }

  /** A page starts at the first cluster ahead of what has been served. */
  lemma StartIsAhead(served: seq<Cluster>, cursor: string, inventory: seq<Cluster>)
    requires Resumes(served, cursor) && Sorted(inventory)
    ensures forall i | 0 <= i < |inventory| :: Ahead(served, inventory[i]) <==> Start(inventory, cursor) <= i
  {
    if served != [] {
      var last := Last(served);
      CursorRoundTrip(last);
      var start := FirstAfter(inventory, last.namespace, last.name);
      forall i | 0 <= i < |inventory| ensures Ahead(served, inventory[i]) <==> start <= i {
        if start <= i {
          SeekIsMonotone(inventory, last.namespace, last.name, start, i);
        }
      }
    }
  }

  /** A page is a slice of the inventory: the rest of it under an empty cursor, and otherwise
      a non-empty slice whose last cluster the cursor names. */
  lemma PageIsSlice(inventory: seq<Cluster>, start: nat, pageSize: nat, page: seq<Cluster>, next: string)
    requires SlashFree(inventory) && pageSize >= 1 && start <= |inventory|
    requires (page, next) == PageFrom(inventory, start, pageSize)
    ensures start + |page| <= |inventory|
    ensures forall i | 0 <= i < |page| :: page[i] == inventory[start + i]
    ensures next == "" ==> start + |page| == |inventory|
    ensures next != "" ==> page != [] && next == Cursor(Last(page)) && '/' !in Last(page).namespace
    ensures next != "" ==> start + |page| < |inventory|
  {
    if start + pageSize < |inventory| {
      assert Last(page) == inventory[start + pageSize - 1];
    }
  }

  lemma PageSorted(served: seq<Cluster>, page: seq<Cluster>, inventory: seq<Cluster>, start: nat)
    requires Sorted(served) && Sorted(inventory) && start + |page| <= |inventory|
    requires forall i | 0 <= i < |page| :: page[i] == inventory[start + i]
    requires forall i | start <= i < |inventory| :: Ahead(served, inventory[i])
    ensures Sorted(served + page)
  {
    forall i, j | 0 <= i < j < |served + page| ensures Before((served + page)[i], (served + page)[j]) {
      if i < |served| <= j {
        var later := inventory[start + j - |served|];
        assert Ahead(served, later);
        BeforeIsStrictOrder(served[i], Last(served), later);
      }
    }
  }

  /** A cluster ahead of what was served is on the page or sorts after the page's last one. */
  lemma PageCovers(page: seq<Cluster>, inventory: seq<Cluster>, start: nat, i: nat)
    requires Sorted(inventory) && start + |page| <= |inventory| && start <= i < |inventory|
    requires forall k | 0 <= k < |page| :: page[k] == inventory[start + k]
    ensures Shown(page, inventory[i]) || (start + |page| <= i && (page != [] ==> Before(Last(page), inventory[i])))
  {
    if i < start + |page| {
      assert SameIdentity(page[i - start], inventory[i]);
    } else if page != [] {
      assert Last(page) == inventory[start + |page| - 1];
    }
  }

  /** What one page does to the walk, with the page given as a slice of the inventory. */
  lemma SliceStep(served: seq<Cluster>, inventory: seq<Cluster>, start: nat, page: seq<Cluster>, more: bool)
    requires Sorted(inventory) && start + |page| <= |inventory|
    requires forall i | 0 <= i < |page| :: page[i] == inventory[start + i]
    requires forall i | 0 <= i < |inventory| :: Ahead(served, inventory[i]) <==> start <= i
    requires if more then page != [] else start + |page| == |inventory|
    ensures forall i | 0 <= i < |inventory| && Ahead(served, inventory[i]) ::
              Shown(page, inventory[i]) || (more && Ahead(served + page, inventory[i]))
  {
    forall i | 0 <= i < |inventory| && Ahead(served, inventory[i])
      ensures Shown(page, inventory[i]) || (more && Ahead(served + page, inventory[i]))
    {
      PageCovers(page, inventory, start, i);
      assert page != [] ==> Last(served + page) == Last(page);
    }
  }

  /** One page: it extends the served list in order, and every cluster of the inventory is
      already behind it, on it, or still ahead; nothing is ahead when the cursor is empty. */
  lemma PageStep(served: seq<Cluster>, cursor: string, request: Request, page: seq<Cluster>, next: string)
    requires Sorted(served) && Resumes(served, cursor) && Proper(request)
    requires (page, next) == Page(request.inventory, cursor, request.pageSize)
    ensures Sorted(served + page)
    ensures next != "" ==> page != [] && Resumes(served + page, next)
    ensures forall i | 0 <= i < |request.inventory| && Ahead(served, request.inventory[i]) ::
              Shown(page, request.inventory[i]) || (next != "" && Ahead(served + page, request.inventory[i]))
  {
    var start := Start(request.inventory, cursor);
    StartIsAhead(served, cursor, request.inventory);
    PageIsSlice(request.inventory, start, request.pageSize, page, next);
    PageSorted(served, page, request.inventory, start);
    SliceStep(served, request.inventory, start, page, next != "");
    assert page != [] ==> Last(served + page) == Last(page);
  }

  /** How far a walk has come after `k` requests. */
  lemma {:induction false} WalkInvariant(requests: seq<Request>, pages: seq<seq<Cluster>>, cursors: seq<string>, k: nat)
    requires Walk(requests, pages, cursors) && k <= |requests|
    ensures Sorted(Flatten(pages[..k]))
    ensures k < |requests| || cursors[k] != "" ==> Resumes(Flatten(pages[..k]), cursors[k])
    ensures cursors[k] != "" ==> |Flatten(pages[..k])| >= k
  {
    if k > 0 {
      WalkInvariant(requests, pages, cursors, k - 1);
      assert pages[..k][..k - 1] == pages[..k - 1];
      assert Answered(requests, pages, cursors, k - 1);
      PageStep(Flatten(pages[..k - 1]), cursors[k - 1], requests[k - 1], pages[k - 1], cursors[k]);
    }
  }

  /** The identities served over a walk strictly increase, so none is served twice. */
  lemma ServedStrictlyIncreases(requests: seq<Request>, pages: seq<seq<Cluster>>, cursors: seq<string>)
    requires Walk(requests, pages, cursors)
    ensures Sorted(Flatten(pages))
  {
    assert pages[..|requests|] == pages;
    WalkInvariant(requests, pages, cursors, |requests|);
  }

  ghost predicate PresentThroughout(requests: seq<Request>, c: Cluster) {
    forall k | 0 <= k < |requests| :: Shown(requests[k].inventory, c)
  }

  /** A listed cluster that is still ahead is served by the next page or remains ahead. */
  lemma PageServesOrKeepsAhead(
      served: seq<Cluster>, cursor: string, request: Request, page: seq<Cluster>, next: string, c: Cluster)
    requires Sorted(served) && Resumes(served, cursor) && Proper(request)
    requires (page, next) == Page(request.inventory, cursor, request.pageSize)
    requires Shown(request.inventory, c) && Ahead(served, c)
    ensures Shown(served + page, c) || (next != "" && Ahead(served + page, c))
  {
    var i :| 0 <= i < |request.inventory| && SameIdentity(request.inventory[i], c);
    var listed := request.inventory[i];
    PageStep(served, cursor, request, page, next);
    assert Ahead(served, listed);
    if Shown(page, listed) {
      var j :| 0 <= j < |page| && SameIdentity(page[j], listed);
      assert SameIdentity((served + page)[|served| + j], c);
    }
  }

  lemma {:induction false} PresentIsServedOrAhead(
      requests: seq<Request>, pages: seq<seq<Cluster>>, cursors: seq<string>, c: Cluster, k: nat)
    requires Walk(requests, pages, cursors) && k <= |requests| && PresentThroughout(requests, c)
    ensures Shown(Flatten(pages[..k]), c) || ((k == 0 || cursors[k] != "") && Ahead(Flatten(pages[..k]), c))
  {
    if k > 0 {
      PresentIsServedOrAhead(requests, pages, cursors, c, k - 1);
      WalkInvariant(requests, pages, cursors, k - 1);
      var served, page := Flatten(pages[..k - 1]), pages[k - 1];
      assert pages[..k][..k - 1] == pages[..k - 1];
      assert Flatten(pages[..k]) == served + page;
      if Shown(served, c) {
        var i :| 0 <= i < |served| && SameIdentity(served[i], c);
        assert SameIdentity((served + page)[i], c);
      } else {
        assert Answered(requests, pages, cursors, k - 1);
        PageServesOrKeepsAhead(served, cursors[k - 1], requests[k - 1], page, cursors[k], c);
      }
    }
  }

  /** Whatever is registered or removed meanwhile, a cluster present throughout the walk has
      been served exactly once by the time the cursor is empty. */
  lemma PresentIsServedOnce(requests: seq<Request>, pages: seq<seq<Cluster>>, cursors: seq<string>, c: Cluster)
    requires Walk(requests, pages, cursors) && requests != [] && cursors[|requests|] == ""
    requires PresentThroughout(requests, c)
    ensures Shown(Flatten(pages), c)
    ensures forall i, j | 0 <= i < |Flatten(pages)| && 0 <= j < |Flatten(pages)|
              && SameIdentity(Flatten(pages)[i], c) && SameIdentity(Flatten(pages)[j], c) :: i == j
  {
    assert pages[..|requests|] == pages;
    PresentIsServedOrAhead(requests, pages, cursors, c, |requests|);
    ServedStrictlyIncreases(requests, pages, cursors);
    var served := Flatten(pages);
    forall i, j | 0 <= i < j < |served| ensures !(SameIdentity(served[i], c) && SameIdentity(served[j], c)) {
      BeforeIsStrictOrder(served[i], served[j], c);
    }
  }

  ghost predicate Fixed(requests: seq<Request>, inventory: seq<Cluster>) {
    forall k | 0 <= k < |requests| :: requests[k].inventory == inventory
  }

  lemma StartAfterPrefix(served: seq<Cluster>, cursor: string, inventory: seq<Cluster>)
    requires Sorted(inventory) && served <= inventory && Resumes(served, cursor)
    requires forall i | 0 <= i < |inventory| :: Ahead(served, inventory[i]) <==> Start(inventory, cursor) <= i
    ensures Start(inventory, cursor) == |served|
  {
    if served != [] {
      BeforeIsStrictOrder(Last(served), Last(served), Last(served));
      assert inventory[|served| - 1] == Last(served);
      assert !Ahead(served, inventory[|served| - 1]);
      assert |served| < |inventory| ==> Ahead(served, inventory[|served|]);
    }
  }

  lemma PrefixExtends(served: seq<Cluster>, inventory: seq<Cluster>, page: seq<Cluster>)
    requires served <= inventory && |served| + |page| <= |inventory|
    requires forall i | 0 <= i < |page| :: page[i] == inventory[|served| + i]
    ensures served + page == inventory[..|served| + |page|]
  {
  }

  lemma FixedStep(served: seq<Cluster>, cursor: string, request: Request, page: seq<Cluster>, next: string)
    requires served <= request.inventory && Resumes(served, cursor) && Proper(request)
    requires (page, next) == Page(request.inventory, cursor, request.pageSize)
    ensures served + page <= request.inventory
    ensures next == "" ==> served + page == request.inventory
    ensures next != "" ==> |served + page| < |request.inventory|
  {
    assert Start(request.inventory, cursor) == |served| by {
      StartIsAhead(served, cursor, request.inventory);
      StartAfterPrefix(served, cursor, request.inventory);
    }
    PageIsSlice(request.inventory, |served|, request.pageSize, page, next);
    PrefixExtends(served, request.inventory, page);
  }

  /** On a fixed inventory the pages so far are a prefix of it. */
  lemma {:induction false} FixedPrefix(
      requests: seq<Request>, pages: seq<seq<Cluster>>, cursors: seq<string>, inventory: seq<Cluster>, k: nat)
    requires Walk(requests, pages, cursors) && Fixed(requests, inventory) && k <= |requests|
    ensures Flatten(pages[..k]) <= inventory
    ensures k > 0 && cursors[k] == "" ==> Flatten(pages[..k]) == inventory
    ensures cursors[k] != "" ==> |Flatten(pages[..k])| < |inventory|
  {
    if k > 0 {
      FixedPrefix(requests, pages, cursors, inventory, k - 1);
      WalkInvariant(requests, pages, cursors, k - 1);
      assert pages[..k][..k - 1] == pages[..k - 1];
      assert Answered(requests, pages, cursors, k - 1);
      FixedStep(Flatten(pages[..k - 1]), cursors[k - 1], requests[k - 1], pages[k - 1], cursors[k]);
    }
  }

  /** On a fixed inventory the pages concatenate to the whole list, whatever the page sizes,
      and the walk ends: it never makes more requests than there are clusters, or one. */
  lemma FixedInventoryIsServedWhole(
      requests: seq<Request>, pages: seq<seq<Cluster>>, cursors: seq<string>, inventory: seq<Cluster>)
    requires Walk(requests, pages, cursors) && Fixed(requests, inventory) && requests != []
    ensures cursors[|requests|] == "" ==> Flatten(pages) == inventory
    ensures cursors[|requests|] != "" ==> |requests| < |inventory|
    ensures |requests| <= if |inventory| == 0 then 1 else |inventory|
  {
    var n := |requests|;
    assert pages[..n] == pages;
    FixedPrefix(requests, pages, cursors, inventory, n);
    WalkInvariant(requests, pages, cursors, n);
    if n > 1 {
      FixedPrefix(requests, pages, cursors, inventory, n - 1);
      WalkInvariant(requests, pages, cursors, n - 1);
    }
  }
}
