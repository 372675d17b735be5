/**
  The observability gateway's slot pools: four bounded channels that concurrent requests
  take without waiting, in nested order, and give back when they finish.
*/
module GatewayAdmission {
  import opened Common

  datatype RequestClass = WorkRequest | CatalogRequest | DashboardRequest

  datatype Pool = Intake | Active | Catalog | Dashboards

  const POOLS: set<Pool> := {Intake, Active, Catalog, Dashboards}

  function Capacity(pool: Pool): nat {
    match pool
    case Intake => 8
    case Active => 4
    case Catalog => 4
    case Dashboards => 2
  }

  function PoolFor(class_: RequestClass): Pool {
    match class_
    case WorkRequest => Active
    case CatalogRequest => Catalog
    case DashboardRequest => Dashboards
  }

  /** A non-blocking send: it takes a slot when one is free and otherwise reports failure. */
  function Admit(used: nat, capacity: nat): Option<nat> {
    if used < capacity then Some(used + 1) else None
  }

  // ---------------------------------------------------------------- requests

  /** Where a request stands in the handler. `marker` is the dashboard admission flag put
      into the context that the rest of the gateway trusts. */
  datatype Phase =
    | Arrived(protocol: bool)
    | Classifying
    | Classified(class_: RequestClass)
    | Serving(class_: RequestClass, marker: bool)
    | PassedThrough
    | Returning(class_: RequestClass)
    | Leaving(status: nat)
    | Finished(status: nat)

  datatype Gateway = Gateway(used: map<Pool, nat>, requests: map<nat, Phase>)

  datatype Event =
    | Arrive(id: nat, protocol: bool)
    | TakeIntake(id: nat)
    | Classify(id: nat, class_: RequestClass)
    | TakePool(id: nat)
    | HandlerReturns(id: nat)
    | ReleasePool(id: nat)
    | ReleaseIntake(id: nat)

  const TOO_MANY_REQUESTS := 429
  const SERVED := 200

  function Initial(): Gateway {
    Gateway(map[Intake := 0, Active := 0, Catalog := 0, Dashboards := 0], map[])
  }

  predicate WellFormed(g: Gateway) {
    g.used.Keys == POOLS
  }

  predicate Enabled(g: Gateway, e: Event) {
    match e
    case Arrive(id, _) => id !in g.requests
    case TakeIntake(id) => id in g.requests && g.requests[id].Arrived?
    case Classify(id, _) => id in g.requests && g.requests[id].Classifying?
    case TakePool(id) => id in g.requests && g.requests[id].Classified?
    case HandlerReturns(id) => id in g.requests && (g.requests[id].Serving? || g.requests[id].PassedThrough?)
    case ReleasePool(id) =>
      id in g.requests && g.requests[id].Returning?
      && PoolFor(g.requests[id].class_) in g.used && g.used[PoolFor(g.requests[id].class_)] > 0
    case ReleaseIntake(id) =>
      id in g.requests && g.requests[id].Leaving? && Intake in g.used && g.used[Intake] > 0
  }

  function Move(g: Gateway, id: nat, phase: Phase): Gateway {
    g.(requests := g.requests[id := phase])
  }

  /** Tries the pool: on success the request moves on holding a slot. */
  function Take(g: Gateway, id: nat, pool: Pool, admitted: Phase, refused: Phase): Gateway
    requires pool in g.used
  {
    match Admit(g.used[pool], Capacity(pool))
    case Some(used) => Gateway(g.used[pool := used], g.requests[id := admitted])
    case None => Move(g, id, refused)
  }

  function Give(g: Gateway, id: nat, pool: Pool, phase: Phase): Gateway
    requires pool in g.used && g.used[pool] > 0
  {
    Gateway(g.used[pool := g.used[pool] - 1], g.requests[id := phase])
  }

  function Next(g: Gateway, e: Event): Gateway
    requires WellFormed(g) && Enabled(g, e)
  {
    match e
    case Arrive(id, protocol) => Move(g, id, Arrived(protocol))
    case TakeIntake(id) =>
      if !g.requests[id].protocol then Move(g, id, PassedThrough)
      else Take(g, id, Intake, Classifying, Finished(TOO_MANY_REQUESTS))
    case Classify(id, class_) => Move(g, id, Classified(class_))
    case TakePool(id) =>
      var class_ := g.requests[id].class_;
      Take(g, id, PoolFor(class_), Serving(class_, class_ == DashboardRequest), Leaving(TOO_MANY_REQUESTS))
    case HandlerReturns(id) =>
      if g.requests[id].PassedThrough? then Move(g, id, Finished(SERVED))
      else Move(g, id, Returning(g.requests[id].class_))
    case ReleasePool(id) => Give(g, id, PoolFor(g.requests[id].class_), Leaving(SERVED))
    case ReleaseIntake(id) => Give(g, id, Intake, Finished(g.requests[id].status))
  }

  // ---------------------------------------------------------------- the invariant

  predicate Holds(phase: Phase, pool: Pool) {
    match phase
    case Classifying => pool == Intake
    case Classified(_) => pool == Intake
    case Serving(class_, _) => pool == Intake || pool == PoolFor(class_)
    case Returning(class_) => pool == Intake || pool == PoolFor(class_)
    case Leaving(_) => pool == Intake
    case Arrived(_) => false
    case PassedThrough => false
    case Finished(_) => false
  }

  function Holders(g: Gateway, pool: Pool): set<nat> {
    set id | id in g.requests && Holds(g.requests[id], pool)
  }

  ghost predicate Inv(g: Gateway) {
    && WellFormed(g)
    && (forall pool | pool in POOLS :: PoolCounted(g, pool))
    && (forall id | id in g.requests :: MarkerRight(g.requests[id]))
  }

  ghost predicate PoolCounted(g: Gateway, pool: Pool) {
    pool in g.used && g.used[pool] == |Holders(g, pool)| && g.used[pool] <= Capacity(pool)
  }

  /** The marker a request in this phase must carry. */
  predicate MarkerRight(phase: Phase) {
    phase.Serving? ==> (phase.marker <==> phase.class_ == DashboardRequest)
  }

  lemma HoldersMove(g: Gateway, h: Gateway, id: nat, phase: Phase, pool: Pool)
    requires h.requests == g.requests[id := phase]
    ensures Holders(h, pool) == if Holds(phase, pool) then Holders(g, pool) + {id} else Holders(g, pool) - {id}
  {
  }

  /** Moving one request between phases changes the holders of a pool by that request only. */
  lemma HoldersAfterMove(g: Gateway, h: Gateway, id: nat, phase: Phase, pool: Pool)
    requires h.requests == g.requests[id := phase]
    ensures var before, after := Holders(g, pool), Holders(h, pool);
      && (Holds(phase, pool) <==> id in after)
      && (Holds(phase, pool) && id in before ==> |after| == |before|)
      && (Holds(phase, pool) && id !in before ==> |after| == |before| + 1)
      && (!Holds(phase, pool) && id in before ==> |after| == |before| - 1)
      && (!Holds(phase, pool) && id !in before ==> |after| == |before|)
  {
    HoldersMove(g, h, id, phase, pool);
  }

  lemma MoveKeeps(g: Gateway, id: nat, phase: Phase)
    requires Inv(g) && MarkerRight(phase)
    requires forall pool | pool in POOLS :: Holds(phase, pool) <==> id in Holders(g, pool)
    ensures Inv(Move(g, id, phase))
  {
    var h := Move(g, id, phase);
    forall pool | pool in POOLS ensures PoolCounted(h, pool) {
      assert PoolCounted(g, pool);
      HoldersAfterMove(g, h, id, phase, pool);
    }
  }

  lemma TakenKeeps(g: Gateway, id: nat, pool: Pool, phase: Phase)
    requires Inv(g) && MarkerRight(phase) && pool in POOLS && g.used[pool] < Capacity(pool)
    requires id !in Holders(g, pool)
    requires forall p | p in POOLS :: Holds(phase, p) <==> id in Holders(g, p) || p == pool
    ensures Inv(Gateway(g.used[pool := g.used[pool] + 1], g.requests[id := phase]))
  {
    var h := Gateway(g.used[pool := g.used[pool] + 1], g.requests[id := phase]);
    forall p | p in POOLS ensures PoolCounted(h, p) {
      assert PoolCounted(g, p);
      HoldersAfterMove(g, h, id, phase, p);
    }
  }

  lemma GivenKeeps(g: Gateway, id: nat, pool: Pool, phase: Phase)
    requires Inv(g) && MarkerRight(phase) && pool in POOLS && id in Holders(g, pool)
    requires g.used[pool] > 0
    requires forall p | p in POOLS :: Holds(phase, p) <==> id in Holders(g, p) && p != pool
    ensures Inv(Give(g, id, pool, phase))
  {
    var h := Give(g, id, pool, phase);
    forall p | p in POOLS ensures PoolCounted(h, p) {
      assert PoolCounted(g, p);
      HoldersAfterMove(g, h, id, phase, p);
    }
  }

  lemma TakeKeeps(g: Gateway, id: nat, pool: Pool, admitted: Phase, refused: Phase)
    requires Inv(g) && pool in POOLS && id !in Holders(g, pool)
    requires MarkerRight(admitted) && MarkerRight(refused)
    requires forall p | p in POOLS :: Holds(admitted, p) <==> id in Holders(g, p) || p == pool
    requires forall p | p in POOLS :: Holds(refused, p) <==> id in Holders(g, p)
    ensures Inv(Take(g, id, pool, admitted, refused))
  {
    if g.used[pool] < Capacity(pool) {
      TakenKeeps(g, id, pool, admitted);
    } else {
      MoveKeeps(g, id, refused);
    }
  }

  lemma NextKeeps(g: Gateway, e: Event)
    requires Inv(g) && Enabled(g, e)
    ensures Inv(Next(g, e))
  {
    var id := e.id;
    match e
    case Arrive(_, protocol) => MoveKeeps(g, id, Arrived(protocol));
    case TakeIntake(_) =>
      if !g.requests[id].protocol {
        MoveKeeps(g, id, PassedThrough);
      } else {
        TakeKeeps(g, id, Intake, Classifying, Finished(TOO_MANY_REQUESTS));
      }
    case Classify(_, class_) => MoveKeeps(g, id, Classified(class_));
    case TakePool(_) =>
      var class_ := g.requests[id].class_;
      TakeKeeps(g, id, PoolFor(class_), Serving(class_, class_ == DashboardRequest), Leaving(TOO_MANY_REQUESTS));
    case HandlerReturns(_) =>
      if g.requests[id].PassedThrough? {
        MoveKeeps(g, id, Finished(SERVED));
      } else {
        MoveKeeps(g, id, Returning(g.requests[id].class_));
      }
    case ReleasePool(_) => GivenKeeps(g, id, PoolFor(g.requests[id].class_), Leaving(SERVED));
    case ReleaseIntake(_) => GivenKeeps(g, id, Intake, Finished(g.requests[id].status));
  }

  ghost predicate Reaches(g: Gateway, events: seq<Event>, h: Gateway)
    requires WellFormed(g)
    decreases |events|
  {
    if events == [] then g == h
    else Enabled(g, events[0]) && WellFormed(Next(g, events[0])) && Reaches(Next(g, events[0]), events[1..], h)
  }

  lemma {:induction false} ReachesKeeps(g: Gateway, events: seq<Event>, h: Gateway)
    requires Inv(g) && Reaches(g, events, h)
    ensures Inv(h)
    decreases |events|
  {
    if events != [] {
      NextKeeps(g, events[0]);
      ReachesKeeps(Next(g, events[0]), events[1..], h);
    }
  }

  lemma ReachableInv(events: seq<Event>, h: Gateway)
    requires Reaches(Initial(), events, h)
    ensures Inv(h)
  {
    forall pool ensures Holders(Initial(), pool) == {} {}
    ReachesKeeps(Initial(), events, h);
  }

  // ---------------------------------------------------------------- the promises

  lemma HoldersNest(g: Gateway)
    ensures Holders(g, Active) !! Holders(g, Catalog) !! Holders(g, Dashboards)
    ensures Holders(g, Active) + Holders(g, Catalog) + Holders(g, Dashboards) <= Holders(g, Intake)
    ensures |Holders(g, Active)| + |Holders(g, Catalog)| + |Holders(g, Dashboards)| <= |Holders(g, Intake)|
  {
    DisjointSizes(Holders(g, Active), Holders(g, Catalog), Holders(g, Dashboards), Holders(g, Intake));
  }

  /** In every reachable state each pool's occupancy is the number of requests holding it and
      is within its bound; whoever holds a work pool also holds intake, and no two work pools
      at once, so at most eight requests are being served. */
  lemma OccupancyIsExact(events: seq<Event>, g: Gateway)
    requires Reaches(Initial(), events, g)
    ensures WellFormed(g)
    ensures forall pool | pool in POOLS :: g.used[pool] == |Holders(g, pool)| <= Capacity(pool)
    ensures Holders(g, Active) !! Holders(g, Catalog) !! Holders(g, Dashboards)
    ensures Holders(g, Active) + Holders(g, Catalog) + Holders(g, Dashboards) <= Holders(g, Intake)
    ensures g.used[Active] <= 4 && g.used[Catalog] <= 4 && g.used[Dashboards] <= 2
    ensures g.used[Active] + g.used[Catalog] + g.used[Dashboards] <= g.used[Intake] <= 8
  {
    ReachableInv(events, g);
    assert PoolCounted(g, Intake) && PoolCounted(g, Active) && PoolCounted(g, Catalog) && PoolCounted(g, Dashboards);
    HoldersNest(g);
  }

  lemma DisjointSizes(a: set<nat>, b: set<nat>, c: set<nat>, all: set<nat>)
    requires a !! b !! c && a + b + c <= all
    ensures |a| + |b| + |c| <= |all|
  {
    assert |a + b| == |a| + |b|;
    assert |a + b + c| == |a + b| + |c|;
    SubsetSize(a + b + c, all);
  }

  lemma {:induction false} SubsetSize(a: set<nat>, b: set<nat>)
    requires a <= b
    ensures |a| <= |b|
  {
    assert b == a + (b - a);
  }

  /** A deferred release never blocks: its slot is there to be taken out. */
  lemma ReleaseNeverBlocks(events: seq<Event>, g: Gateway, id: nat)
    requires Reaches(Initial(), events, g) && id in g.requests
    ensures g.requests[id].Returning? ==> Enabled(g, ReleasePool(id))
    ensures g.requests[id].Leaving? ==> Enabled(g, ReleaseIntake(id))
  {
    ReachableInv(events, g);
    if g.requests[id].Returning? {
      assert id in Holders(g, PoolFor(g.requests[id].class_));
    }
    if g.requests[id].Leaving? {
      assert id in Holders(g, Intake);
    }
  }

  /** The next event of a request that has not finished. */
  function NextEvent(id: nat, phase: Phase, class_: RequestClass): Event
    requires !phase.Finished?
  {
    match phase
    case Arrived(_) => TakeIntake(id)
    case Classifying => Classify(id, class_)
    case Classified(_) => TakePool(id)
    case Serving(_, _) => HandlerReturns(id)
    case PassedThrough => HandlerReturns(id)
    case Returning(_) => ReleasePool(id)
    case Leaving(_) => ReleaseIntake(id)
  }

  /** How many of its own events a request still has ahead of it, at most. */
  function StepsLeft(phase: Phase): nat {
    match phase
    case Arrived(_) => 6
    case Classifying => 5
    case Classified(_) => 4
    case Serving(_, _) => 3
    case Returning(_) => 2
    case PassedThrough => 1
    case Leaving(_) => 1
    case Finished(_) => 0
  }

  /** No request ever waits for another: its next event is always possible, brings it closer
      to the end and leaves every other request where it was. */
  lemma NobodyWaits(events: seq<Event>, g: Gateway, id: nat, class_: RequestClass)
    requires Reaches(Initial(), events, g) && id in g.requests && !g.requests[id].Finished?
    ensures WellFormed(g) && Enabled(g, NextEvent(id, g.requests[id], class_))
    ensures var h := Next(g, NextEvent(id, g.requests[id], class_));
      && id in h.requests && StepsLeft(h.requests[id]) < StepsLeft(g.requests[id])
      && forall other | other in g.requests && other != id :: other in h.requests && h.requests[other] == g.requests[other]
  {
    assert WellFormed(g) by {
      ReachableInv(events, g);
    }
    ReleaseNeverBlocks(events, g, id);
    NextProgress(g, id, class_);
  }

  lemma NextProgress(g: Gateway, id: nat, class_: RequestClass)
    requires WellFormed(g) && id in g.requests && !g.requests[id].Finished?
    requires Enabled(g, NextEvent(id, g.requests[id], class_))
    ensures var h := Next(g, NextEvent(id, g.requests[id], class_));
      && id in h.requests && StepsLeft(h.requests[id]) < StepsLeft(g.requests[id])
      && forall other | other in g.requests && other != id :: other in h.requests && h.requests[other] == g.requests[other]
  {
  }

  /** When every request has finished, all pools are empty again. */
  lemma PoolsDrain(events: seq<Event>, g: Gateway)
    requires Reaches(Initial(), events, g)
    requires forall id | id in g.requests :: g.requests[id].Finished?
    ensures WellFormed(g) && forall pool | pool in POOLS :: g.used[pool] == 0
  {
    ReachableInv(events, g);
    forall pool | pool in POOLS ensures Holders(g, pool) == {} {}
  }

  /** The context marker is true exactly for the requests holding a dashboard slot, and those
      hold no data-work slot. */
  lemma MarkerMeansDashboardSlot(events: seq<Event>, g: Gateway, id: nat)
    requires Reaches(Initial(), events, g) && id in g.requests && g.requests[id].Serving?
    ensures g.requests[id].marker <==> id in Holders(g, Dashboards)
    ensures g.requests[id].marker ==> id !in Holders(g, Active) && id !in Holders(g, Catalog)
  {
    ReachableInv(events, g);
  }

  lemma PoolRefuses(g: Gateway, id: nat)
    requires Inv(g) && id in g.requests && Enabled(g, TakePool(id))
    ensures var class_ := g.requests[id].class_;
      var pool := if class_ == WorkRequest then Active else if class_ == CatalogRequest then Catalog else Dashboards;
      && (Next(g, TakePool(id)).requests[id] == Leaving(429) <==>
            |Holders(g, pool)| == if class_ == DashboardRequest then 2 else 4)
      && forall other | other in Holders(g, pool) ::
           (g.requests[other].Serving? || g.requests[other].Returning?) && g.requests[other].class_ == class_
  {
    assert PoolCounted(g, PoolFor(g.requests[id].class_));
  }

  /** A request is turned away only by its own kind: intake refuses only when eight requests
      hold it, and a work pool only when it is full of requests of the same class, so
      dashboards waiting for nested data work never cause a data request to be refused. */
  lemma RefusedOnlyByOwnKind(events: seq<Event>, g: Gateway, id: nat)
    requires Reaches(Initial(), events, g) && id in g.requests
    ensures WellFormed(g)
    ensures Enabled(g, TakeIntake(id)) && g.requests[id].protocol ==>
      (Next(g, TakeIntake(id)).requests[id] == Finished(429) <==> |Holders(g, Intake)| == 8)
    ensures Enabled(g, TakePool(id)) ==>
      var class_ := g.requests[id].class_;
      var pool := if class_ == WorkRequest then Active else if class_ == CatalogRequest then Catalog else Dashboards;
      && (Next(g, TakePool(id)).requests[id] == Leaving(429) <==>
            |Holders(g, pool)| == if class_ == DashboardRequest then 2 else 4)
      && forall other | other in Holders(g, pool) ::
           (g.requests[other].Serving? || g.requests[other].Returning?) && g.requests[other].class_ == class_
  {
    ReachableInv(events, g);
    if Enabled(g, TakePool(id)) {
      PoolRefuses(g, id);
    } else if Enabled(g, TakeIntake(id)) {
      assert PoolCounted(g, Intake);
    }
  }
}
