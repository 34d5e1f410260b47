/**
  `ServiceManager` as it is written: an object whose methods update its own two maps and the
  two kernel maps in place. Each method is proved to take one step of the state machine, for
  whatever order Go iterates the ports in.
 */
module Manager {
  import opened Words
  import opened Services
  import opened Tables
  import opened Writes
  import opened Machine

  /** A list of all members of a set. */
  lemma {:induction false} SomeOrder(ports: set<Port>) returns (order: seq<Port>)
    ensures Enumerates(order, ports)
    decreases ports
  {
    if ports == {} {
      order := [];
    } else {
      var p :| p in ports;
      var rest := SomeOrder(ports - {p});
      order := [p] + rest;
    }
  }

  /** What one more write makes of a history. */
  ghost function After(trace: Trace, w: Write): Performed {
    if Succeeds(Last(trace), w) then Performed(trace + [Apply(Last(trace), w)], true) else Performed(trace, false)
  }

  lemma {:induction false} PutSlotsStop(start: Trace, svc: Service, port: Port, i: nat, n: nat)
    requires i <= n <= |svc.endpoints| < 0x1_0000
    requires !Perform(start, PutSlots(svc, port, i)).done
    ensures Perform(start, PutSlots(svc, port, n)) == Perform(start, PutSlots(svc, port, i))
    decreases n - i
  {
    if i < n {
      PutSlotsStop(start, svc, port, i, n - 1);
      PerformMore(start, PutSlots(svc, port, n - 1), PutBackend(BackendKey(svc.id, n), SlotValue(svc, port, n)));
    }
  }

  lemma PutSlotsMore(start: Trace, svc: Service, port: Port, i: nat, trace: Trace)
    requires i < |svc.endpoints| < 0x1_0000
    requires Perform(start, PutSlots(svc, port, i)) == Performed(trace, true)
    ensures Perform(start, PutSlots(svc, port, i + 1)) ==
            After(trace, PutBackend(BackendKey(svc.id, i + 1), SlotValue(svc, port, i + 1)))
  {
    PerformMore(start, PutSlots(svc, port, i), PutBackend(BackendKey(svc.id, i + 1), SlotValue(svc, port, i + 1)));
  }

  lemma DropSlotsMore(start: Trace, svc: Service, i: nat, trace: Trace)
    requires i + 1 < 0x1_0000
    requires Perform(start, DropSlots(svc, 0, i)) == Performed(trace, true)
    ensures Perform(start, DropSlots(svc, 0, i + 1)) == After(trace, DropBackend(BackendKey(svc.id, i)))
  {
    PerformMore(start, DropSlots(svc, 0, i), DropBackend(BackendKey(svc.id, i)));
  }

  /** One write, then a batch. */
  lemma PerformFirst(start: Trace, w: Write, ws: seq<Write>)
    ensures var r := After(start, w);
            Perform(start, [w] + ws) == if r.done then Perform(r.trace, ws) else r
  {
    PerformMore(start, [], w);
    assert [] + [w] == [w];
    PerformConcat(start, [w], ws);
  }

  lemma AppendMorePorts(start: Trace, svc: Service, order: seq<Port>, p: Port, trace: Trace)
    requires |svc.endpoints| < 0x1_0000
    requires Perform(start, AppendWrites(svc, order)) == Performed(trace, true)
    ensures Perform(start, AppendWrites(svc, order + [p])) == Perform(trace, AppendPort(svc, p))
  {
    assert (order + [p])[..|order|] == order;
    PerformConcat(start, AppendWrites(svc, order), AppendPort(svc, p));
  }

  lemma DeleteMorePorts(start: Trace, svc: Service, order: seq<Port>, p: Port, trace: Trace)
    requires |svc.endpoints| < 0x1_0000
    requires Perform(start, DeletePorts(svc, order)) == Performed(trace, true)
    ensures Perform(start, DeletePorts(svc, order + [p])) == Perform(trace, DeletePort(svc, p))
  {
    assert (order + [p])[..|order|] == order;
    PerformConcat(start, DeletePorts(svc, order), DeletePort(svc, p));
  }

  /** One more member visited, out of those that remain. */
  lemma EnumeratesMore(order: seq<Port>, ports: set<Port>, rest: set<Port>, p: Port)
    requires Enumerates(order, ports - rest) && rest <= ports && p in rest
    ensures Enumerates(order + [p], ports - (rest - {p})) && rest - {p} <= ports
  {
  }

  lemma EnumeratesRest(a: seq<Port>, b: seq<Port>, ports: set<Port>, rest: set<Port>)
    requires Enumerates(a, ports - rest) && Enumerates(b, rest) && rest <= ports
    ensures Enumerates(a + b, ports)
  {
    var c := a + b;
    forall i, j | 0 <= i < j < |c| ensures c[i] != c[j] {
      assert c[i] in a || c[i] == b[i - |a|];
      assert c[j] in b || c[j] == a[j];
    }
  }

  class ServiceManager {
    var services: map<string, Service>
    var cacheServiceId: set<U16>
    var serviceMap: map<Frontend, Entry>
    var endpointsMap: map<U32, Backend>
    /** A kernel map refused a write: the iteration over the ports panicked. */
    var panicked: bool

    ghost var owner: map<Frontend, Service>
    ghost var trace: seq<Tables>
    ghost var pool: set<Service>

    ghost predicate Valid()
      reads this
    {
      && trace != []
      && Last(trace) == Tables(serviceMap, endpointsMap, owner)
      && (forall key :: key in services ==> |services[key].endpoints| < 0x1_0000 && services[key].Key() == key)
    }

    ghost function View(): (s: State)
      requires Valid()
      reads this
      ensures Fitting(s)
    {
      State(services, cacheServiceId, trace, pool, panicked)
    }

    /** The kernel maps are handed over as they are; they are empty unless an earlier process left something. */
    constructor (service: map<Frontend, Entry>, endpoint: map<U32, Backend>)
      ensures Valid() && View() == INITIAL.(trace := [Tables(service, endpoint, map[])])
      ensures service == map[] && endpoint == map[] ==> View() == INITIAL
    {
      services, cacheServiceId, serviceMap, endpointsMap, panicked := map[], {}, service, endpoint, false;
      owner, trace, pool := map[], [Tables(service, endpoint, map[])], {};
    }

    method PutService(key: Frontend, value: Entry, ghost writer: Service) returns (ok: bool)
      requires Valid()
      modifies this`serviceMap, this`owner, this`trace
      ensures Valid()
      ensures Performed(trace, ok) == After(old(trace), PutEntry(key, value, writer))
    {
      ok := key in serviceMap || |serviceMap| < CAPACITY;
      if ok {
        trace := trace + [Apply(Last(trace), PutEntry(key, value, writer))];
        serviceMap := serviceMap[key := value];
        owner := owner[key := writer];
      }
    }

    method DropService(key: Frontend) returns (ok: bool)
      requires Valid()
      modifies this`serviceMap, this`trace
      ensures Valid()
      ensures Performed(trace, ok) == After(old(trace), DropEntry(key))
    {
      ok := key in serviceMap;
      if ok {
        trace := trace + [Apply(Last(trace), DropEntry(key))];
        serviceMap := serviceMap - {key};
      }
    }

    method PutEndpoint(key: U32, value: Backend) returns (ok: bool)
      requires Valid()
      modifies this`endpointsMap, this`trace
      ensures Valid()
      ensures Performed(trace, ok) == After(old(trace), PutBackend(key, value))
    {
      ok := key in endpointsMap || |endpointsMap| < CAPACITY;
      if ok {
        trace := trace + [Apply(Last(trace), PutBackend(key, value))];
        endpointsMap := endpointsMap[key := value];
      }
    }

    method DropEndpoint(key: U32) returns (ok: bool)
      requires Valid()
      modifies this`endpointsMap, this`trace
      ensures Valid()
      ensures Performed(trace, ok) == After(old(trace), DropBackend(key))
    {
      ok := key in endpointsMap;
      if ok {
        trace := trace + [Apply(Last(trace), DropBackend(key))];
        endpointsMap := endpointsMap - {key};
      }
    }

    /** The allocation loop: the least free id goes to the service, the id it had before is marked. */
    method AllocateId(svc: Service) returns (svc': Service)
      requires Valid()
      modifies this`cacheServiceId
      ensures Valid()
      ensures svc' == Assigned(old(cacheServiceId), svc)
      ensures cacheServiceId == Marked(Written, old(cacheServiceId), svc)
      ensures if exists i: U16 :: 1 <= i < 65535 && i !in old(cacheServiceId) then
                && 1 <= svc'.id < 65535 && svc'.id !in old(cacheServiceId) && svc' == svc.(id := svc'.id)
                && (forall j: U16 :: 1 <= j < svc'.id ==> j in old(cacheServiceId))
                && cacheServiceId == old(cacheServiceId) + {svc.id}
              else
                svc' == svc && cacheServiceId == old(cacheServiceId)
    {
      svc' := svc;
      var i := 1;
      while i < ID_LIMIT
        invariant 1 <= i <= ID_LIMIT
        invariant cacheServiceId == old(cacheServiceId) && svc' == svc
        invariant FirstFree(cacheServiceId, 1) == FirstFree(cacheServiceId, i)
      {
        if i !in cacheServiceId {
          cacheServiceId := cacheServiceId + {svc.id};
          svc' := svc.(id := i);
          return;
        }
        i := i + 1;
      }
    }

    /** One visit of the append's iteration over the ports. */
    method AppendVisit(svc: Service, port: Port) returns (ok: bool)
      requires Valid() && |svc.endpoints| < 0x1_0000
      modifies this`serviceMap, this`endpointsMap, this`owner, this`trace
      ensures Valid()
      ensures Performed(trace, ok) == Perform(old(trace), AppendPort(svc, port))
      ensures ok ==> EntrySet(old(serviceMap), serviceMap, svc, port) && SlotsSet(endpointsMap, svc, port)
    {
      ghost var start := trace;
      var key := Frontend(svc.address, ByteSwap(port.port), ParseProto(port.protocol));
      var value := Entry(svc.id, |svc.endpoints| % 0x1_0000);
      PerformFirst(start, PutEntry(key, value, svc), PutSlots(svc, port, |svc.endpoints|));
      ok := PutService(key, value, svc);
      if ok {
        ok := AppendEndpoints(svc, port);
      }
      if ok { VisitSets(start, svc, port); }
    }

    /** The inner loop of an append, over the endpoints. */
    method AppendEndpoints(svc: Service, port: Port) returns (ok: bool)
      requires Valid() && |svc.endpoints| < 0x1_0000
      modifies this`endpointsMap, this`trace
      ensures Valid()
      ensures Performed(trace, ok) == Perform(old(trace), PutSlots(svc, port, |svc.endpoints|))
    {
      ghost var start := trace;
      ok := true;
      for index := 0 to |svc.endpoints|
        invariant Valid() && ok
        invariant Perform(start, PutSlots(svc, port, index)) == Performed(trace, true)
      {
        PutSlotsMore(start, svc, port, index, trace);
        ok := PutEndpoint(BackendKey(svc.id, index + 1), Backend(svc.endpoints[index], ByteSwap(port.targetPort)));
        if !ok {
          PutSlotsStop(start, svc, port, index + 1, |svc.endpoints|);
          return;
        }
      }
    }

    /** The iteration over the ports, in whatever order it picks. */
    method AppendPorts(svc: Service) returns (ok: bool, ghost order: seq<Port>)
      requires Valid() && |svc.endpoints| < 0x1_0000
      modifies this`serviceMap, this`endpointsMap, this`owner, this`trace
      ensures Valid()
      ensures Enumerates(order, svc.ports)
      ensures Performed(trace, ok) == Perform(old(trace), AppendWrites(svc, order))
    {
      var ports := svc.ports;
      ok, order := true, [];
      while ports != {}
        invariant Valid() && ports <= svc.ports && Enumerates(order, svc.ports - ports)
        invariant Perform(old(trace), AppendWrites(svc, order)) == Performed(trace, true)
        invariant ok
        decreases ports
      {
        var port :| port in ports;
        AppendMorePorts(old(trace), svc, order, port, trace);
        EnumeratesMore(order, svc.ports, ports, port);
        ok := AppendVisit(svc, port);
        order := order + [port];
        ports := ports - {port};
        if !ok {
          ghost var rest := SomeOrder(ports);
          AppendStop(old(trace), svc, order, rest);
          EnumeratesRest(order, rest, svc.ports, ports);
          order := order + rest;
          return;
        }
      }
      assert svc.ports - ports == svc.ports;
    }

    method AppendService(svc: Service) returns (ghost order: seq<Port>)
      requires Valid() && !panicked && |svc.endpoints| < 0x1_0000
      modifies this
      ensures Valid()
      ensures Enumerates(order, svc.ports)
      ensures View() == Append(Written, old(View()), svc, order)
    {
      var svc' := AllocateId(svc);
      pool := pool + {svc'};
      var ok;
      ok, order := AppendPorts(svc');
      if !ok {
        panicked := true;
        return;
      }
      services := services[svc'.Key() := svc'];
    }

    /** One visit of the delete's iteration over the ports. */
    method DeleteVisit(svc: Service, port: Port) returns (ok: bool)
      requires Valid() && |svc.endpoints| < 0x1_0000
      modifies this`serviceMap, this`endpointsMap, this`trace
      ensures Valid()
      ensures Performed(trace, ok) == Perform(old(trace), DeletePort(svc, port))
      ensures ok ==> EntryGone(old(serviceMap), serviceMap, svc, port)
      ensures ok ==> SlotsGone(old(endpointsMap), endpointsMap, svc)
    {
      ghost var start := trace;
      var key := Frontend(svc.address, ByteSwap(port.port), ParseProto(port.protocol));
      PerformFirst(start, DropEntry(key), DropSlots(svc, 0, |svc.endpoints|));
      ok := DropService(key);
      if ok {
        ok := DeleteEndpoints(svc);
      }
      if ok { VisitDrops(start, svc, port); }
    }

    /** The inner loop of a delete, over the endpoints. */
    method DeleteEndpoints(svc: Service) returns (ok: bool)
      requires Valid() && |svc.endpoints| < 0x1_0000
      modifies this`endpointsMap, this`trace
      ensures Valid()
      ensures Performed(trace, ok) == Perform(old(trace), DropSlots(svc, 0, |svc.endpoints|))
    {
      ghost var start := trace;
      ok := true;
      for index := 0 to |svc.endpoints|
        invariant Valid() && ok
        invariant Perform(start, DropSlots(svc, 0, index)) == Performed(trace, true)
      {
        DropSlotsMore(start, svc, index, trace);
        ok := DropEndpoint(BackendKey(svc.id, index));
        if !ok {
          DropSlotsStop(start, svc, index + 1, |svc.endpoints|);
          return;
        }
      }
    }

    /** The iteration over the ports, in whatever order it picks. */
    method DeleteAllPorts(svc: Service) returns (ok: bool, ghost gone: seq<Port>)
      requires Valid() && |svc.endpoints| < 0x1_0000
      modifies this`serviceMap, this`endpointsMap, this`trace
      ensures Valid()
      ensures Enumerates(gone, svc.ports)
      ensures Performed(trace, ok) == Perform(old(trace), DeletePorts(svc, gone))
    {
      var ports := svc.ports;
      ok, gone := true, [];
      while ports != {}
        invariant Valid() && ports <= svc.ports && Enumerates(gone, svc.ports - ports)
        invariant Perform(old(trace), DeletePorts(svc, gone)) == Performed(trace, true)
        invariant ok
        decreases ports
      {
        var port :| port in ports;
        DeleteMorePorts(old(trace), svc, gone, port, trace);
        EnumeratesMore(gone, svc.ports, ports, port);
        ok := DeleteVisit(svc, port);
        gone := gone + [port];
        ports := ports - {port};
        if !ok {
          ghost var rest := SomeOrder(ports);
          DeleteStop(old(trace), svc, gone, rest);
          EnumeratesRest(gone, rest, svc.ports, ports);
          gone := gone + rest;
          return;
        }
      }
      assert svc.ports - ports == svc.ports;
    }

    method DeleteService(key: string) returns (ghost gone: seq<Port>)
      requires Valid() && !panicked
      modifies this
      ensures Valid()
      ensures key in old(services) ==> Enumerates(gone, old(services)[key].ports)
      ensures View() == Delete(Written, old(View()), key, gone)
    {
      gone := [];
      if key !in services {
        return;
      }
      var ok;
      ok, gone := DeleteAllPorts(services[key]);
      if !ok {
        panicked := true;
        return;
      }
      services := services - {key};
    }

    method UpdateService(svc: Service) returns (ghost gone: seq<Port>, ghost order: seq<Port>)
      requires Valid() && !panicked && |svc.endpoints| < 0x1_0000
      modifies this
      ensures Valid()
      ensures OrdersFit(old(View()), UpdateOp(svc, gone, order))
      ensures View() == Update(Written, old(View()), svc, gone, order)
      ensures !panicked ==>
                var key := svc.namespace + "/" + svc.name;
                && key in services && services[key] == svc.(id := services[key].id)
                && (forall other :: other != key ==>
                      && (other in services <==> other in old(services))
                      && (other in services ==> services[other] == old(services)[other]))
    {
      gone := [];
      if svc.Key() !in services {
        order := AppendService(svc);
        return;
      }
      var replaced := services[svc.Key()];
      gone := DeleteService(replaced.Key());
      if panicked {
        order := SomeOrder(svc.ports);
        return;
      }
      order := AppendService(svc);
    }
  }
}
