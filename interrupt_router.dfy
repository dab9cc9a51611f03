/** The per-core interrupt route table (kernel/interrupts/Router.cpp).

    Every core that has run InitCore owns a routing object holding a tree of routes
    ordered by vector. A route is an object the caller owns; the router writes the core
    and vector it was given into it and links it into that core's tree. Routes are added
    at the lowest free vector of the allocation window, claimed at a given vector,
    removed, and looked up when an interrupt is dispatched.

    The values of NoCoreAffinity and of the allocation window come from Router.h, which is
    not part of this model: NoCoreAffinity is taken to be `-1` as a size_t, like the
    unassigned vector, and the window bounds are construction parameters. The calling
    core's id is a parameter, and the route's callback result is a parameter of Dispatch. */
module InterruptRouting {
  import opened Common
  import opened OrderedTree

  /** `-1ul`, the vector of a route that is not routed. */
  const Unassigned: nat := 0xFFFF_FFFF_FFFF_FFFF
  const NoCoreAffinity: nat := 0xFFFF_FFFF_FFFF_FFFF

  class InterruptRoute {
    var core: nat
    var vector: nat
    const hasCallback: bool
    const hasDpc: bool

    constructor (hasCallback: bool, hasDpc: bool)
      ensures core == NoCoreAffinity && vector == Unassigned
      ensures this.hasCallback == hasCallback && this.hasDpc == hasDpc
    {
      core := NoCoreAffinity;
      vector := Unassigned;
      this.hasCallback := hasCallback;
      this.hasDpc := hasDpc;
    }
  }

  /** A core's routing (CoreIntrRouting): its id and its route tree keyed by vector. */
  class CoreRouting {
    const coreId: nat
    var tree: Tree<InterruptRoute>

    constructor (coreId: nat)
      ensures this.coreId == coreId && tree == Leaf
    {
      this.coreId := coreId;
      tree := Leaf;
    }
  }

  /** The first routing for `core` in registration order, or null. */
  function FirstRouting(rs: seq<CoreRouting>, core: nat): (r: CoreRouting?)
    ensures r != null ==> r in rs && r.coreId == core
    ensures r == null <==> forall x | x in rs :: x.coreId != core
  {
    if rs == [] then null else if rs[0].coreId == core then rs[0] else FirstRouting(rs[1..], core)
  }

  /** The lowest vector in [lo, hi) not in `used`, if any. */
  function LowestFree(used: set<nat>, lo: nat, hi: nat): (r: Option<nat>)
    ensures r.Some? ==> lo <= r.value < hi && r.value !in used && forall u | lo <= u < r.value :: u in used
    ensures r.None? ==> forall u | lo <= u < hi :: u in used
    decreases if lo < hi then hi - lo else 0
  {
    if lo >= hi then None else if lo !in used then Some(lo) else LowestFree(used, lo + 1, hi)
  }

  datatype DispatchOutcome = Dropped | Handled | QueuedDpc

  /** Dispatch's rule: an unrouted vector is dropped; otherwise the DPC is queued when there
      is one and either there is no callback or the callback asked for it. */
  function DispatchDecision(routed: bool, hasCallback: bool, hasDpc: bool, callbackResult: bool): (d: DispatchOutcome)
    ensures d == Dropped <==> !routed
    ensures d == QueuedDpc <==> routed && hasDpc && (!hasCallback || callbackResult)
  {
    if !routed then Dropped
    else
      var queueDpc := if hasCallback then callbackResult else true;
      if hasDpc && queueDpc then QueuedDpc else Handled
  }

  class InterruptRouter {
    var routings: seq<CoreRouting>
    /** The routes linked into some tree, kept beside the trees so that their fields are
        known to belong to allocated objects. */
    ghost var linked: set<InterruptRoute>
    const allocBase: nat
    const allocLimit: nat

    constructor (allocBase: nat, allocLimit: nat)
      requires allocLimit <= Unassigned
      ensures Valid() && routings == []
      ensures this.allocBase == allocBase && this.allocLimit == allocLimit
    {
      routings := [];
      linked := {};
      this.allocBase := allocBase;
      this.allocLimit := allocLimit;
    }

    /** Every route currently linked into some core's tree. */
    ghost function RouteObjects(): set<InterruptRoute>
      reads this, routings
    {
      set r, k | r in routings && k in Contents(r.tree) :: Contents(r.tree)[k]
    }

    /** Each core has one routing, every tree is ordered by vector, and every linked route
        records the core and vector it is linked under. */
    ghost predicate Valid()
      reads this, routings, linked
    {
      linked == RouteObjects() &&
      allocLimit <= Unassigned &&
      (forall i, j | 0 <= i < j < |routings| :: routings[i].coreId != routings[j].coreId) &&
      (forall r | r in routings :: Ordered(r.tree)) &&
      (forall r, k | r in routings && k in Contents(r.tree) ::
         Contents(r.tree)[k].vector == k && Contents(r.tree)[k].core == r.coreId)
    }

    /** The route linked under `vector` on `core`, or null. */
    function Lookup(core: nat, vector: nat): InterruptRoute?
      reads this, routings
    {
      var routing := FirstRouting(routings, core);
      if routing == null then null
      else if vector in Contents(routing.tree) then Contents(routing.tree)[vector]
      else null
    }

    /** Two routes linked on the same core never share a vector. */
    lemma RoutedVectorsDistinct(r: CoreRouting, ka: nat, kb: nat)
      requires Valid() && r in routings
      requires ka in Contents(r.tree) && kb in Contents(r.tree) && ka != kb
      ensures Contents(r.tree)[ka] != Contents(r.tree)[kb]
      ensures Contents(r.tree)[ka].vector != Contents(r.tree)[kb].vector
    {
    }

    /** InitCore: registers a fresh, empty routing for the calling core. */
    method InitCore(localCore: nat) returns (routing: CoreRouting)
      requires Valid()
      requires FirstRouting(routings, localCore) == null
      modifies this
      ensures Valid() && linked == old(linked)
      ensures fresh(routing) && routing.coreId == localCore && routing.tree == Leaf
      ensures routings == old(routings) + [routing]
      ensures FirstRouting(routings, localCore) == routing
    {
      routing := new CoreRouting(localCore);
      FirstRoutingAppend(routings, routing, localCore);
      ghost var before := routings;
      routings := routings + [routing];
      forall r, k | r in routings && k in Contents(r.tree)
        ensures Contents(r.tree)[k] in linked
        ensures Contents(r.tree)[k].vector == k && Contents(r.tree)[k].core == r.coreId
      {
        assert r in before;
        assert Contents(r.tree)[k] in old(RouteObjects());
      }
      forall o | o in linked
        ensures o in RouteObjects()
      {
        var r, k :| r in before && k in Contents(r.tree) && Contents(r.tree)[k] == o;
        assert r in routings;
      }
    }

    /** GetRouting: the routing registered for `core`, found by scanning the list. */
    method GetRouting(core: nat) returns (r: CoreRouting?)
      ensures r == FirstRouting(routings, core)
    {
      var i := 0;
      while i < |routings|
        invariant 0 <= i <= |routings|
        invariant FirstRouting(routings, core) == FirstRouting(routings[i..], core)
      {
        assert routings[i..][0] == routings[i] && routings[i..][1..] == routings[i + 1..];
        if routings[i].coreId == core {
          return routings[i];
        }
        i := i + 1;
      }
      return null;
    }

    /** FindRoute: the route with exactly this vector on this core, by ordered descent of the
        core's tree, or null when the core has no routing or no such route. */
    method FindRoute(core: nat, vector: nat) returns (route: InterruptRoute?)
      requires Valid()
      ensures route == Lookup(core, vector)
    {
      var routing := GetRouting(core);
      if routing == null {
        return null;
      }
      var found := Find(routing.tree, vector);
      route := if found.Some? then found.value else null;
    }

    /** The intrusive tree's insertion: links an unlinked route, whose core and vector are
        already the routing's and the free slot's, under that vector. */
    method Link(routing: CoreRouting, v: nat, route: InterruptRoute)
      requires Valid() && routing in routings
      requires route !in linked && v !in Contents(routing.tree)
      requires route.vector == v && route.core == routing.coreId
      modifies this, routing
      ensures Valid() && routings == old(routings) && linked == old(linked) + {route}
      ensures Contents(routing.tree) == old(Contents(routing.tree))[v := route]
      ensures forall r | r in routings && r != routing :: r.tree == old(r.tree)
    {
      ghost var before := Contents(routing.tree);
      routing.tree := Insert(routing.tree, v, route);
      linked := linked + {route};
      forall r, k | r in routings && k in Contents(r.tree)
        ensures Contents(r.tree)[k] in linked
        ensures Contents(r.tree)[k].vector == k && Contents(r.tree)[k].core == r.coreId
      {
        if r != routing || k != v {
          assert k in old(Contents(r.tree)) && old(Contents(r.tree))[k] == Contents(r.tree)[k];
          assert Contents(r.tree)[k] in old(RouteObjects());
        }
      }
      forall o | o in linked
        ensures o in RouteObjects()
      {
        if o == route {
          assert Contents(routing.tree)[v] == o;
        } else {
          var r, k :| r in routings && k in old(Contents(r.tree)) && old(Contents(r.tree))[k] == o;
          assert k != v || r != routing;
          assert Contents(r.tree)[k] == o;
        }
      }
    }

    /** The intrusive tree's removal: unlinks a route from the routing it is linked into. */
    method Unlink(routing: CoreRouting, route: InterruptRoute)
      requires Valid() && routing in routings && routing.coreId == route.core
      requires route.vector in Contents(routing.tree) && Contents(routing.tree)[route.vector] == route
      modifies this, routing
      ensures Valid() && routings == old(routings) && linked == old(linked) - {route}
      ensures Contents(routing.tree) == old(Contents(routing.tree)) - {route.vector}
      ensures forall r | r in routings && r != routing :: r.tree == old(r.tree)
    {
      LinkedOnce(routing, route);
      routing.tree := Remove(routing.tree, route.vector);
      linked := linked - {route};
      forall r, k | r in routings && k in Contents(r.tree)
        ensures Contents(r.tree)[k] in linked
        ensures Contents(r.tree)[k].vector == k && Contents(r.tree)[k].core == r.coreId
      {
        assert k in old(Contents(r.tree)) && old(Contents(r.tree))[k] == Contents(r.tree)[k];
        assert Contents(r.tree)[k] in old(RouteObjects());
      }
      forall o | o in linked
        ensures o in RouteObjects()
      {
        var r, k :| r in routings && k in old(Contents(r.tree)) && old(Contents(r.tree))[k] == o;
        assert Contents(r.tree)[k] == o;
      }
    }

    /** A route is linked under its own vector in its own core's tree and nowhere else. */
    lemma LinkedOnce(routing: CoreRouting, route: InterruptRoute)
      requires Valid() && routing in routings && routing.coreId == route.core
      requires route.vector in Contents(routing.tree) && Contents(routing.tree)[route.vector] == route
      ensures forall r, k | r in routings && k in Contents(r.tree) && Contents(r.tree)[k] == route ::
                r == routing && k == route.vector
    {
      forall r, k | r in routings && k in Contents(r.tree) && Contents(r.tree)[k] == route
        ensures r == routing && k == route.vector
      {
        var i :| 0 <= i < |routings| && routings[i] == r;
        var j :| 0 <= j < |routings| && routings[j] == routing;
      }
    }

    /** AddRoute: targets the calling core when there is no affinity, then links the route
        at the lowest vector of the allocation window not yet routed on that core. The
        route records its target core even when the core has no routing. */
    method AddRoute(route: InterruptRoute, core: nat, localCore: nat) returns (ok: bool)
      requires Valid()
      requires route !in linked
      modifies this, route, routings
      ensures Valid() && routings == old(routings)
      ensures linked == if ok then old(linked) + {route} else old(linked)
      ensures var target := if core == NoCoreAffinity then localCore else core;
        route.core == target &&
        var routing := FirstRouting(routings, target);
        (routing == null ==>
           !ok && route.vector == Unassigned && forall r | r in routings :: r.tree == old(r.tree)) &&
        (routing != null ==>
           var free := LowestFree(old(Contents(routing.tree)).Keys, allocBase, allocLimit);
           ok == free.Some? &&
           (free.Some? ==>
              route.vector == free.value && Contents(routing.tree) == old(Contents(routing.tree))[free.value := route]) &&
           (free.None? ==> route.vector == Unassigned && routing.tree == old(routing.tree)) &&
           forall r | r in routings && r != routing :: r.tree == old(r.tree))
    {
      var target := if core == NoCoreAffinity then localCore else core;
      route.vector := Unassigned;
      route.core := target;

      var routing := GetRouting(target);
      if routing == null {
        return false;
      }

      AddOn(routing, route);
      ok := route.vector != Unassigned;
    }

    /** AddRoute once the target core's routing is found: the route is linked at the lowest
        free vector of the allocation window, and keeps the unassigned vector when there
        is none. */
    method AddOn(routing: CoreRouting, route: InterruptRoute)
      requires Valid() && routing in routings && routing == FirstRouting(routings, routing.coreId)
      requires route !in linked && route.core == routing.coreId && route.vector == Unassigned
      modifies this, route, routing
      ensures Valid() && routings == old(routings) && route.core == routing.coreId
      ensures var free := LowestFree(old(Contents(routing.tree)).Keys, allocBase, allocLimit);
        linked == (if free.Some? then old(linked) + {route} else old(linked)) &&
        (free.Some? ==>
           route.vector == free.value && Contents(routing.tree) == old(Contents(routing.tree))[free.value := route]) &&
        (free.None? ==> route.vector == Unassigned && routing.tree == old(routing.tree))
      ensures forall r | r in routings && r != routing :: r.tree == old(r.tree)
    {
      var free := FreeVector(routing);
      if free.Some? {
        route.vector := free.value;
        Link(routing, free.value, route);
      }
    }

    /** AddRoute's search: the lowest vector of the allocation window with no route on the
        routing's core, probing each vector with FindRoute. */
    method FreeVector(routing: CoreRouting) returns (free: Option<nat>)
      requires Valid() && routing == FirstRouting(routings, routing.coreId)
      ensures free == LowestFree(Contents(routing.tree).Keys, allocBase, allocLimit)
    {
      ghost var used := Contents(routing.tree).Keys;
      var i := allocBase;
      while i < allocLimit
        invariant allocBase <= i
        invariant LowestFree(used, allocBase, allocLimit) == LowestFree(used, i, allocLimit)
        decreases allocLimit - i
      {
        var found := FindRoute(routing.coreId, i);
        if found == null {
          return Some(i);
        }
        i := i + 1;
      }
      return None;
    }

    /** ClaimRoute: links the route at `vector` on `core` when that slot is free, and
        otherwise leaves it unrouted. The answer is whether the route ended up with a core,
        so a claim on core NoCoreAffinity reports false even when it linked the route. */
    method ClaimRoute(route: InterruptRoute, core: nat, vector: nat) returns (ok: bool)
      requires Valid()
      requires route !in linked
      modifies this, route, routings
      ensures Valid() && routings == old(routings)
      ensures var routing := FirstRouting(routings, core);
        var inserted := routing != null && vector !in old(Contents(routing.tree));
        linked == (if inserted then old(linked) + {route} else old(linked)) &&
        (inserted ==>
           route.core == core && route.vector == vector &&
           Contents(routing.tree) == old(Contents(routing.tree))[vector := route]) &&
        (!inserted ==> route.core == NoCoreAffinity && route.vector == Unassigned) &&
        (forall r | r in routings && (!inserted || r != routing) :: r.tree == old(r.tree)) &&
        ok == (inserted && core != NoCoreAffinity)
    {
      route.core := NoCoreAffinity;
      route.vector := Unassigned;

      var routing := GetRouting(core);
      if routing == null {
        return false;
      }

      ClaimOn(routing, route, vector);
      ok := route.core != NoCoreAffinity;
    }

    /** ClaimRoute once the core's routing is found: the route is linked at `vector` when
        no route has it, and stays unrouted otherwise. */
    method ClaimOn(routing: CoreRouting, route: InterruptRoute, vector: nat)
      requires Valid() && routing in routings && routing == FirstRouting(routings, routing.coreId)
      requires route !in linked && route.core == NoCoreAffinity && route.vector == Unassigned
      modifies this, route, routing
      ensures Valid() && routings == old(routings)
      ensures var inserted := vector !in old(Contents(routing.tree));
        linked == (if inserted then old(linked) + {route} else old(linked)) &&
        (inserted ==>
           route.core == routing.coreId && route.vector == vector &&
           Contents(routing.tree) == old(Contents(routing.tree))[vector := route]) &&
        (!inserted ==> route.core == NoCoreAffinity && route.vector == Unassigned && routing.tree == old(routing.tree))
      ensures forall r | r in routings && r != routing :: r.tree == old(r.tree)
    {
      var found := FindRoute(routing.coreId, vector);
      if found == null {
        route.core := routing.coreId;
        route.vector := vector;
        Link(routing, vector, route);
      }
    }

    /** RemoveRoute: unlinks the route from its core's tree and marks it unrouted. The
        route must be linked under its own vector on its own core, as the intrusive tree's
        removal demands. */
    method RemoveRoute(route: InterruptRoute) returns (ok: bool)
      requires Valid()
      requires var routing := FirstRouting(routings, route.core);
        routing != null ==> route.vector in Contents(routing.tree) && Contents(routing.tree)[route.vector] == route
      modifies this, route, routings
      ensures Valid() && routings == old(routings)
      ensures var routing := FirstRouting(routings, old(route.core));
        (routing == null ==>
           !ok && route.core == old(route.core) && route.vector == old(route.vector) &&
           linked == old(linked) && forall r | r in routings :: r.tree == old(r.tree)) &&
        (routing != null ==>
           ok && route.core == NoCoreAffinity && route.vector == Unassigned &&
           Contents(routing.tree) == old(Contents(routing.tree)) - {old(route.vector)} &&
           linked == old(linked) - {route} &&
           forall r | r in routings && r != routing :: r.tree == old(r.tree))
    {
      var routing := GetRouting(route.core);
      if routing == null {
        return false;
      }
      Unlink(routing, route);
      route.core := NoCoreAffinity;
      route.vector := Unassigned;
      ok := true;
    }

    /** Dispatch of `vector` on the calling core, whose routing must exist. */
    method Dispatch(vector: nat, localCore: nat, callbackResult: bool) returns (d: DispatchOutcome)
      requires Valid()
      requires FirstRouting(routings, localCore) != null
      ensures var r := Lookup(localCore, vector);
        d == DispatchDecision(r != null, r != null && r.hasCallback, r != null && r.hasDpc, callbackResult)
    {
      var route := FindRoute(localCore, vector);
      if route == null {
        return Dropped;
      }
      var queueDpc := true;
      if route.hasCallback {
        queueDpc := callbackResult;
      }
      if route.hasDpc && queueDpc {
        return QueuedDpc;
      }
      return Handled;
    }
  }

  lemma FirstRoutingAppend(rs: seq<CoreRouting>, r: CoreRouting, core: nat)
    requires FirstRouting(rs, core) == null && r.coreId == core
    ensures FirstRouting(rs + [r], core) == r
  {
    if rs != [] {
      assert (rs + [r])[1..] == rs[1..] + [r];
      FirstRoutingAppend(rs[1..], r, core);
    }
  }
}
