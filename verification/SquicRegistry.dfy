/** The receiver's shared route registry (`IncomingUdpRegistry` in src/shadowquic/mod.rs). The notifier is a
    generation counter: a waiter created at generation g is woken once the counter has passed g. */
module SquicRegistry {
  import opened Bytes
  import opened Addresses

  /** Where payloads of an id go: an association's queue, under a destination. */
  datatype Route = Route(association: nat, destination: Address)

  datatype Registry = Registry(routes: map<u16, Route>, closed: bool, generation: nat)

  const EMPTY := Registry(map[], false, 0)

  function Insert(r: Registry, id: u16, route: Route): Registry {
    r.(routes := r.routes[id := route])
  }

  function Notify(r: Registry): Registry {
    r.(generation := r.generation + 1)
  }

  function Ids(ids: seq<u16>): set<u16> {
    set x | x in ids
  }

  function RemoveIds(r: Registry, ids: seq<u16>): Registry {
    r.(routes := r.routes - Ids(ids))
  }

  class IncomingUdpRegistry {
    var routes: map<u16, Route>
    var closed: bool
    var generation: nat

    ghost function View(): Registry
      reads this
    {
      Registry(routes, closed, generation)
    }

    constructor ()
      ensures View() == EMPTY
    {
      routes, closed, generation := map[], false, 0;
    }

    /** `register` with nothing in between; the machine also lets other tasks run between its two halves. */
    method RegisterRoute(id: u16, route: Route)
      modifies this
      ensures View() == Notify(Insert(old(View()), id, route))
    {
      routes := routes[id := route];
      generation := generation + 1;
    }

    /** `remove`, one id at a time under one lock. */
    method Remove(ids: seq<u16>)
      modifies this`routes
      ensures View() == RemoveIds(old(View()), ids)
    {
      for i := 0 to |ids|
        invariant routes == old(routes) - Ids(ids[..i])
      {
        assert ids[..i + 1] == ids[..i] + [ids[i]];
        routes := routes - {ids[i]};
      }
      assert ids[..|ids|] == ids;
    }

    method Close()
      modifies this`closed, this`generation
      ensures View() == Notify(old(View()).(closed := true))
    {
      closed := true;
      generation := generation + 1;
    }
  }
}
