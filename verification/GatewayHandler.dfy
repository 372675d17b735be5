/**
  The gateway's admission handler as one goroutine runs it: two takes, the served request with
  whatever requests it sends back to the gateway meanwhile, and the deferred releases.
*/
module GatewayHandler {
  import opened GatewayAdmission

  /** A request and those that serving it sends to the same gateway. `orchestrates` marks a
      dashboard query, whose tool asks for the admission marker. */
  datatype Request = Request(protocol: bool, class_: RequestClass, orchestrates: bool, nested: seq<Request>)

  /** Turned away at a pool, declined by the tool, or answered. */
  datatype Response = Refused | Declined | Answered(nested: seq<Response>)

  /** The occupancy of the four pools. */
  datatype Occupancy = Occupancy(intake: nat, active: nat, catalog: nat, dashboards: nat)

  function UsedOf(o: Occupancy, pool: Pool): nat {
    match pool
    case Intake => o.intake
    case Active => o.active
    case Catalog => o.catalog
    case Dashboards => o.dashboards
  }

  function Taken(o: Occupancy, pool: Pool): Occupancy {
    match pool
    case Intake => o.(intake := o.intake + 1)
    case Active => o.(active := o.active + 1)
    case Catalog => o.(catalog := o.catalog + 1)
    case Dashboards => o.(dashboards := o.dashboards + 1)
  }

  /** The tool refuses to orchestrate under a marker that says it holds a data slot. */
  predicate Declines(r: Request) {
    r.orchestrates && r.protocol && r.class_ != DashboardRequest
  }

  predicate Admits(r: Request, o: Occupancy) {
    r.protocol ==> o.intake < Capacity(Intake) && UsedOf(o, PoolFor(r.class_)) < Capacity(PoolFor(r.class_))
  }

  /** The occupancy that the served request, and everything nested in it, finds. */
  function Inside(r: Request, o: Occupancy): Occupancy {
    if r.protocol then Taken(Taken(o, Intake), PoolFor(r.class_)) else o
  }

  /** What a request that has the gateway to itself is answered, given how full the pools are. */
  function Respond(r: Request, o: Occupancy): Response {
    if !Admits(r, o) then Refused
    else if Declines(r) then Declined
    else Answered(seq(|r.nested|, i requires 0 <= i < |r.nested| => Respond(r.nested[i], Inside(r, o))))
  }

  // ---------------------------------------------------------------- the handler

  /** A buffered channel used as a slot counter. */
  class SlotPool {
    const capacity: nat
    var used: nat

    constructor (capacity: nat)
      ensures this.capacity == capacity && used == 0
    {
      this.capacity, used := capacity, 0;
    }

    /** The select with a default branch: never waits. */
    method AdmitRequest() returns (ok: bool)
      modifies this
      ensures ok <==> Admit(old(used), capacity).Some?
      ensures used == if ok then Admit(old(used), capacity).value else old(used)
      ensures old(used) <= capacity ==> used <= capacity
    {
      if used < capacity {
        used := used + 1;
        return true;
      }
      return false;
    }

    /** The deferred receive; it would block on an empty channel, which callers must exclude. */
    method Release()
      requires used > 0
      modifies this
      ensures used == old(used) - 1
    {
      used := used - 1;
    }
  }

  class Limiter {
    const intake: SlotPool
    const active: SlotPool
    const catalog: SlotPool
    const dashboards: SlotPool

    constructor ()
      ensures Valid() && Used() == Occupancy(0, 0, 0, 0)
      ensures fresh(intake) && fresh(active) && fresh(catalog) && fresh(dashboards)
    {
      active := new SlotPool(Capacity(Active));
      catalog := new SlotPool(Capacity(Catalog));
      dashboards := new SlotPool(Capacity(Dashboards));
      intake := new SlotPool(Capacity(Intake));
    }

    ghost predicate Valid()
      reads this, intake, active, catalog, dashboards
    {
      && intake != active && intake != catalog && intake != dashboards
      && active != catalog && active != dashboards && catalog != dashboards
      && intake.used <= intake.capacity == Capacity(Intake) && active.used <= active.capacity == Capacity(Active)
      && catalog.used <= catalog.capacity == Capacity(Catalog)
      && dashboards.used <= dashboards.capacity == Capacity(Dashboards)
    }

    function Used(): Occupancy
      reads this, intake, active, catalog, dashboards
    {
      Occupancy(intake.used, active.used, catalog.used, dashboards.used)
    }

    /** Every way through the handler leaves every pool as it found it, no pool ever exceeds
        its capacity, and the answer depends on the occupancy at entry alone. */
    method ServeHTTP(r: Request) returns (response: Response)
      requires Valid()
      modifies intake, active, catalog, dashboards
      ensures Valid() && Used() == old(Used())
      ensures response == Respond(r, old(Used()))
      decreases r, 1
    {
      if !r.protocol {
        response := Next(r);
        return;
      }
      var admitted := intake.AdmitRequest();
      if !admitted {
        return Refused;
      }
      var slots := active;
      match r.class_ {
        case WorkRequest => slots := active;
        case CatalogRequest => slots := catalog;
        case DashboardRequest => slots := dashboards;
      }
      admitted := slots.AdmitRequest();
      if !admitted {
        intake.Release();
        return Refused;
      }
      response := Next(r);
      slots.Release();
      intake.Release();
    }

    /** The rest of the gateway, with the slots of `r` taken. */
    method Next(r: Request) returns (response: Response)
      requires Valid()
      modifies intake, active, catalog, dashboards
      ensures Valid() && Used() == old(Used())
      ensures response == if Declines(r) then Declined
        else Answered(seq(|r.nested|, i requires 0 <= i < |r.nested| => Respond(r.nested[i], old(Used()))))
      decreases r, 0
    {
      if Declines(r) {
        return Declined;
      }
      var nested: seq<Response> := [];
      for i := 0 to |r.nested|
        invariant Valid() && Used() == old(Used())
        invariant |nested| == i && forall k | 0 <= k < i :: nested[k] == Respond(r.nested[k], old(Used()))
      {
        var one := ServeHTTP(r.nested[i]);
        nested := nested + [one];
      }
      return Answered(nested);
    }
  }

  // ---------------------------------------------------------------- what the pools are for

  predicate NoMoreThan(o: Occupancy, p: Occupancy) {
    o.intake <= p.intake && o.active <= p.active && o.catalog <= p.catalog && o.dashboards <= p.dashboards
  }

  /** `x` answers everything that `y` answers. */
  ghost predicate AnswersMore(x: Response, y: Response) {
    match y
    case Refused => true
    case Declined => x.Declined?
    case Answered(nested) =>
      x.Answered? && |x.nested| == |nested| && forall i | 0 <= i < |nested| :: AnswersMore(x.nested[i], nested[i])
  }

  /** A less busy gateway answers at least as much, at every depth. */
  lemma {:induction false} LessBusyAnswersMore(r: Request, o: Occupancy, p: Occupancy)
    requires NoMoreThan(o, p)
    ensures AnswersMore(Respond(r, o), Respond(r, p))
  {
    if Respond(r, p).Answered? {
      forall i | 0 <= i < |r.nested|
        ensures AnswersMore(Respond(r.nested[i], Inside(r, o)), Respond(r.nested[i], Inside(r, p)))
      {
        LessBusyAnswersMore(r.nested[i], Inside(r, o), Inside(r, p));
      }
    }
  }

  /** Dashboards send data requests, authoring tools among those send discovery requests, and
      discovery sends nothing. */
  function Layer(class_: RequestClass): nat {
    match class_
    case CatalogRequest => 0
    case WorkRequest => 1
    case DashboardRequest => 2
  }

  ghost predicate Layered(r: Request) {
    && r.protocol && (r.orchestrates ==> r.class_ == DashboardRequest)
    && forall i | 0 <= i < |r.nested| :: Layered(r.nested[i]) && Layer(r.nested[i].class_) < Layer(r.class_)
  }

  /** One slot for each layer from `layer` down, in its pool and in intake. */
  predicate RoomFor(o: Occupancy, layer: nat) {
    && o.intake + layer < Capacity(Intake)
    && o.catalog < Capacity(Catalog)
    && (layer >= 1 ==> o.active < Capacity(Active))
    && (layer >= 2 ==> o.dashboards < Capacity(Dashboards))
  }

  ghost predicate AnsweredThroughout(x: Response) {
    x.Answered? && forall i | 0 <= i < |x.nested| :: AnsweredThroughout(x.nested[i])
  }

  /** One free slot per layer is enough for a whole tree of nested requests, however many it
      sends: nobody is refused on account of the slots of those it is nested in. */
  lemma {:induction false} LayeredNestingIsAnswered(r: Request, o: Occupancy)
    requires Layered(r) && RoomFor(o, Layer(r.class_))
    ensures AnsweredThroughout(Respond(r, o))
  {
    forall i | 0 <= i < |r.nested| ensures AnsweredThroughout(Respond(r.nested[i], Inside(r, o))) {
      var child := r.nested[i];
      assert RoomFor(Inside(r, o), Layer(child.class_));
      LayeredNestingIsAnswered(child, Inside(r, o));
    }
  }

  /** The order of the layers matters: a request nested in one of its own class needs a second
      slot of that pool, and with one left it is refused while its parent is answered. */
  lemma SameClassNestingCompetes(class_: RequestClass, o: Occupancy)
    requires o.intake + 1 < Capacity(Intake) && UsedOf(o, PoolFor(class_)) + 1 == Capacity(PoolFor(class_))
    ensures Respond(Request(true, class_, false, [Request(true, class_, false, [])]), o) == Answered([Refused])
  {
  }

  ghost predicate NoDashboards(r: Request) {
    r.class_ != DashboardRequest && forall i | 0 <= i < |r.nested| :: NoDashboards(r.nested[i])
  }

  lemma {:induction false} DashboardsDoNotMatter(r: Request, o: Occupancy, dashboards: nat)
    requires NoDashboards(r)
    ensures Respond(r, o.(dashboards := dashboards)) == Respond(r, o)
  {
    var p := o.(dashboards := dashboards);
    if Respond(r, o).Answered? {
      forall i | 0 <= i < |r.nested| ensures Respond(r.nested[i], Inside(r, p)) == Respond(r.nested[i], Inside(r, o)) {
        DashboardsDoNotMatter(r.nested[i], Inside(r, o), Inside(r, p).dashboards);
        assert Inside(r, p) == Inside(r, o).(dashboards := Inside(r, p).dashboards);
      }
    }
  }

  /** A dashboard query that is answered leaves the data pools to the requests it sends: they,
      and everything nested in them, are answered as if it held nothing but its intake slot.
      A query that was not admitted as a dashboard is not answered at all. */
  lemma OrchestrationLeavesDataSlots(r: Request, o: Occupancy, i: nat)
    requires r.protocol && r.orchestrates && Respond(r, o).Answered?
    requires i < |r.nested| && NoDashboards(r.nested[i])
    ensures Respond(r, o).nested[i] == Respond(r.nested[i], Taken(o, Intake))
  {
    DashboardsDoNotMatter(r.nested[i], Taken(o, Intake), o.dashboards + 1);
  }
}
