/**
  From an endpoint slice to the manager: building a service out of the listed objects, and the
  handler's choice between update and delete.
 */
module Endpoints {
  import opened Words
  import opened Services
  import opened Writes
  import opened Machine
  import opened Manager

  /** Ports are 32-bit in the API. */
  datatype ApiPort = ApiPort(protocol: string, port: int, targetPort: int)

  datatype ApiService = ApiService(namespace: string, name: string, clusterIp: U32, ports: seq<ApiPort>)

  /** `ready` may be unset; an address is `None` when it is not an IPv4 address. */
  datatype ApiEndpoint = ApiEndpoint(ready: Option<bool>, addresses: seq<Option<U32>>)

  datatype ApiSlice = ApiSlice(serviceName: string, deleting: bool, endpoints: seq<ApiEndpoint>)

  /** The endpoint makes the builder dereference nil or index an empty slice. */
  predicate Faulty(e: ApiEndpoint) { e.ready == None || (e.ready == Some(true) && None in e.addresses) }

  predicate AnyFaulty(es: seq<ApiEndpoint>) { exists i :: 0 <= i < |es| && Faulty(es[i]) }

  /** The non-zero addresses, in order. */
  function Addresses(as_: seq<Option<U32>>): seq<U32> {
    if as_ == [] then []
    else
      var last := as_[|as_| - 1];
      Addresses(as_[..|as_| - 1]) + if last.Some? && last.value != 0 then [last.value] else []
  }

  /** The addresses of the ready endpoints, in order. */
  function ReadyAddresses(es: seq<ApiEndpoint>): seq<U32> {
    if es == [] then []
    else
      var last := es[|es| - 1];
      ReadyAddresses(es[..|es| - 1]) + if last.ready == Some(true) then Addresses(last.addresses) else []
  }

  lemma {:induction false} AddressListed(as_: seq<Option<U32>>, a: U32)
    ensures a in Addresses(as_) <==> a != 0 && Some(a) in as_
  {
    if as_ != [] {
      AddressListed(as_[..|as_| - 1], a);
      assert as_ == as_[..|as_| - 1] + [as_[|as_| - 1]];
    }
  }

  /** An address is used exactly when it is not zero and a ready endpoint lists it. */
  lemma {:induction false} ReadyAddressListed(es: seq<ApiEndpoint>, a: U32)
    ensures a in ReadyAddresses(es) <==>
            a != 0 && exists e :: e in es && e.ready == Some(true) && Some(a) in e.addresses
  {
    if es != [] {
      var init, last := es[..|es| - 1], es[|es| - 1];
      ReadyAddressListed(init, a);
      AddressListed(last.addresses, a);
      assert es == init + [last];
      assert forall e :: e in es <==> e in init || e == last;
    }
  }

  // ---------------------------------------------------------------------------
  // The list of addresses, by where each comes from.

  /** Address `j` of endpoint `i` is `a`, not zero, and the endpoint is ready. */
  predicate Usable(es: seq<ApiEndpoint>, i: int, j: int, a: U32) {
    && 0 <= i < |es| && es[i].ready == Some(true)
    && 0 <= j < |es[i].addresses| && es[i].addresses[j] == Some(a) && a != 0
  }

  predicate Before(x: (int, int), y: (int, int)) { x.0 < y.0 || (x.0 == y.0 && x.1 < y.1) }

  /** `from` lists the places of all usable addresses, each once and in order; `out` has the addresses. */
  ghost predicate Listing(es: seq<ApiEndpoint>, from: seq<(int, int)>, out: seq<U32>) {
    && |out| == |from|
    && (forall k :: 0 <= k < |from| ==> Usable(es, from[k].0, from[k].1, out[k]))
    && (forall i, j, a :: Usable(es, i, j, a) ==> (i, j) in from)
    && (forall k, l :: 0 <= k < l < |from| ==> Before(from[k], from[l]))
  }

  /** A listing of all but the last endpoint and of the first `m` addresses of that one. */
  ghost predicate PartListing(es: seq<ApiEndpoint>, n: int, m: int, from: seq<(int, int)>, out: seq<U32>) {
    && |out| == |from|
    && (forall k :: 0 <= k < |from| ==> Usable(es, from[k].0, from[k].1, out[k]) && Before(from[k], (n, m)))
    && (forall i, j, a :: Usable(es, i, j, a) && Before((i, j), (n, m)) ==> (i, j) in from)
    && (forall k, l :: 0 <= k < l < |from| ==> Before(from[k], from[l]))
  }

  lemma OneMorePlace(es: seq<ApiEndpoint>, n: nat, m: nat, from: seq<(int, int)>, out: seq<U32>)
      returns (from': seq<(int, int)>)
    requires n < |es| && m < |es[n].addresses| && es[n].ready == Some(true) && PartListing(es, n, m, from, out)
    ensures PartListing(es, n, m + 1, from', out + Addresses(es[n].addresses[m..m + 1]))
  {
    var x := es[n].addresses[m];
    var one := es[n].addresses[m..m + 1];
    assert one == [x] && one[..0] == [];
    if x.Some? && x.value != 0 {
      from' := from + [(n, m)];
      assert Addresses(one) == [x.value];
    } else {
      from' := from;
      assert Addresses(one) == [];
      assert out + [] == out;
    }
  }

  lemma {:induction false} AddressesConcat(a: seq<Option<U32>>, b: seq<Option<U32>>)
    ensures Addresses(a + b) == Addresses(a) + Addresses(b)
    decreases |b|
  {
    if b == [] {
      assert a + b == a;
    } else {
      assert (a + b)[..|a + b| - 1] == a + b[..|b| - 1];
      AddressesConcat(a, b[..|b| - 1]);
    }
  }

  /** The first `m` addresses of endpoint `n`. */
  lemma {:induction false} PlacesWithin(es: seq<ApiEndpoint>, n: nat, m: nat, from: seq<(int, int)>, out: seq<U32>)
      returns (from': seq<(int, int)>)
    requires n < |es| && m <= |es[n].addresses| && es[n].ready == Some(true) && PartListing(es, n, 0, from, out)
    ensures PartListing(es, n, m, from', out + Addresses(es[n].addresses[..m]))
    decreases m
  {
    var as_ := es[n].addresses;
    if m == 0 {
      from' := from;
      assert as_[..0] == [] && out + [] == out;
    } else {
      from' := PlacesWithin(es, n, m - 1, from, out);
      from' := OneMorePlace(es, n, m - 1, from', out + Addresses(as_[..m - 1]));
      AddressesConcat(as_[..m - 1], as_[m - 1..m]);
      assert as_[..m - 1] + as_[m - 1..m] == as_[..m];
      assert out + Addresses(as_[..m - 1]) + Addresses(as_[m - 1..m]) == out + Addresses(as_[..m]);
    }
  }

  /** All places of an endpoint are listed: go on with the next. */
  lemma NextEndpoint(es: seq<ApiEndpoint>, n: nat, m: int, from: seq<(int, int)>, out: seq<U32>)
    requires n < |es| && PartListing(es, n, m, from, out)
    requires es[n].ready == Some(true) ==> m == |es[n].addresses|
    ensures PartListing(es, n + 1, 0, from, out)
  {
    forall i, j, a | Usable(es, i, j, a) && Before((i, j), (n + 1, 0)) ensures (i, j) in from {
      assert Before((i, j), (n, m)) by { assert i == n ==> j < |es[n].addresses|; }
    }
  }

  lemma {:induction false} Places(es: seq<ApiEndpoint>, n: nat) returns (from: seq<(int, int)>)
    requires n <= |es|
    ensures PartListing(es, n, 0, from, ReadyAddresses(es[..n]))
    decreases n
  {
    if n == 0 {
      from := [];
    } else {
      from := Places(es, n - 1);
      var e := es[n - 1];
      assert es[..n][..n - 1] == es[..n - 1];
      if e.ready == Some(true) {
        from := PlacesWithin(es, n - 1, |e.addresses|, from, ReadyAddresses(es[..n - 1]));
        assert e.addresses[..|e.addresses|] == e.addresses;
        NextEndpoint(es, n - 1, |e.addresses|, from, ReadyAddresses(es[..n]));
      } else {
        assert ReadyAddresses(es[..n]) == ReadyAddresses(es[..n - 1]);
        NextEndpoint(es, n - 1, 0, from, ReadyAddresses(es[..n]));
      }
    }
  }

  /** The addresses are listed by order and multiplicity: one for each usable place, in the order of the places. */
  lemma ReadyAddressesInOrder(es: seq<ApiEndpoint>) returns (from: seq<(int, int)>)
    ensures Listing(es, from, ReadyAddresses(es))
  {
    from := Places(es, |es|);
    assert es[..|es|] == es;
  }

  function PortOf(p: ApiPort): Port { Port(p.protocol, p.port % 0x1_0000, p.targetPort % 0x1_0000) }

  function PortsOf(ps: seq<ApiPort>): set<Port> { set p | p in ps :: PortOf(p) }

  lemma PortsOfMore(ps: seq<ApiPort>, i: nat)
    requires i < |ps|
    ensures PortsOf(ps[..i + 1]) == PortsOf(ps[..i]) + {PortOf(ps[i])}
  {
    assert ps[..i + 1] == ps[..i] + [ps[i]];
  }

  /** What the builder makes of a service and a slice without faults. */
  function Built(svc: ApiService, slice: ApiSlice): Service {
    Service(svc.namespace, svc.name, 0, svc.clusterIp, PortsOf(svc.ports), ReadyAddresses(slice.endpoints))
  }

  /**
    The service has the API object's namespace, name and address, a port for each API port with
    its protocol and both numbers cut to 16 bits, and the slice's usable addresses in order.
   */
  ghost predicate BuiltFrom(r: Service, svc: ApiService, slice: ApiSlice) {
    && r.namespace == svc.namespace && r.name == svc.name && r.id == 0 && r.address == svc.clusterIp
    && (forall p :: p in r.ports <==>
          exists i :: 0 <= i < |svc.ports| && p.protocol == svc.ports[i].protocol &&
                      p.port == svc.ports[i].port % 0x1_0000 && p.targetPort == svc.ports[i].targetPort % 0x1_0000)
    && exists from :: Listing(slice.endpoints, from, r.endpoints)
  }

  lemma BuiltIsBuiltFrom(svc: ApiService, slice: ApiSlice)
    ensures BuiltFrom(Built(svc, slice), svc, slice)
  {
    var r := Built(svc, slice);
    forall p | p in r.ports
      ensures exists i :: 0 <= i < |svc.ports| && p.protocol == svc.ports[i].protocol &&
                p.port == svc.ports[i].port % 0x1_0000 && p.targetPort == svc.ports[i].targetPort % 0x1_0000
    {
      var api :| api in svc.ports && p == PortOf(api);
      var i :| 0 <= i < |svc.ports| && svc.ports[i] == api;
      assert p.protocol == svc.ports[i].protocol;
    }
    forall p: Port, i | 0 <= i < |svc.ports| && p.protocol == svc.ports[i].protocol &&
                        p.port == svc.ports[i].port % 0x1_0000 && p.targetPort == svc.ports[i].targetPort % 0x1_0000
      ensures p in r.ports
    {
      assert p == PortOf(svc.ports[i]) && svc.ports[i] in svc.ports;
    }
    var from := ReadyAddressesInOrder(slice.endpoints);
  }

  method AppendAddresses(e: ApiEndpoint, before: seq<U32>) returns (after: seq<U32>, ok: bool)
    requires e.ready == Some(true)
    ensures ok <==> None !in e.addresses
    ensures ok ==> after == before + Addresses(e.addresses)
  {
    after, ok := before, true;
    for i := 0 to |e.addresses|
      invariant ok && None !in e.addresses[..i]
      invariant after == before + Addresses(e.addresses[..i])
    {
      assert e.addresses[..i + 1][..i] == e.addresses[..i];
      assert e.addresses[..i + 1] == e.addresses[..i] + [e.addresses[i]];
      match e.addresses[i] {
        case None =>
          ok := false;
          return;
        case Some(ipv4) =>
          if ipv4 != 0 {
            after := after + [ipv4];
          }
      }
    }
    assert e.addresses[..|e.addresses|] == e.addresses;
  }

  lemma FaultyIff(es: seq<ApiEndpoint>)
    ensures AnyFaulty(es) <==>
            exists e :: e in es && (e.ready == None || (e.ready == Some(true) && None in e.addresses))
  {
    if AnyFaulty(es) {
      var i :| 0 <= i < |es| && Faulty(es[i]);
      assert es[i] in es;
    }
    forall e | e in es && Faulty(e) ensures AnyFaulty(es) {
      var i :| 0 <= i < |es| && es[i] == e;
    }
  }

  /** `None` is a panic: an endpoint without readiness, or a ready one with an address that is not IPv4. */
  method NewService(svc: ApiService, slice: ApiSlice) returns (r: Option<Service>)
    ensures r.None? <==> exists e :: e in slice.endpoints &&
                                     (e.ready == None || (e.ready == Some(true) && None in e.addresses))
    ensures r.None? <==> AnyFaulty(slice.endpoints)
    ensures r.Some? ==> BuiltFrom(r.value, svc, slice) && r.value == Built(svc, slice)
  {
    FaultyIff(slice.endpoints);
    r := Build(svc, slice);
    BuiltIsBuiltFrom(svc, slice);
  }

  method Build(svc: ApiService, slice: ApiSlice) returns (r: Option<Service>)
    ensures r.None? <==> AnyFaulty(slice.endpoints)
    ensures r.Some? ==> r.value == Built(svc, slice)
  {
    var ports: set<Port> := {};
    for i := 0 to |svc.ports|
      invariant ports == PortsOf(svc.ports[..i])
    {
      ports := ports + {Port(svc.ports[i].protocol, svc.ports[i].port % 0x1_0000, svc.ports[i].targetPort % 0x1_0000)};
      PortsOfMore(svc.ports, i);
    }
    assert svc.ports[..|svc.ports|] == svc.ports;
    var endpoints: seq<U32> := [];
    var es := slice.endpoints;
    for i := 0 to |es|
      invariant forall j :: 0 <= j < i ==> !Faulty(es[j])
      invariant endpoints == ReadyAddresses(es[..i])
    {
      assert es[..i + 1][..i] == es[..i];
      match es[i].ready {
        case None => return None;
        case Some(ready) =>
          if ready {
            var ok;
            endpoints, ok := AppendAddresses(es[i], endpoints);
            if !ok {
              return None;
            }
          }
      }
    }
    assert es[..|es|] == es;
    return Some(Service(svc.namespace, svc.name, 0, svc.clusterIp, ports, endpoints));
  }

  datatype Outcome = Done | Failed | Panicked

  /** What the listers know. */
  datatype Cluster = Cluster(slices: map<(string, string), ApiSlice>, services: map<(string, string), ApiService>)

  predicate Known(c: Cluster, namespace: string, name: string) {
    (namespace, name) in c.slices && (namespace, c.slices[(namespace, name)].serviceName) in c.services
  }

  /** The service an event for a known slice is about. */
  function Target(c: Cluster, namespace: string, name: string): Service
    requires Known(c, namespace, name)
  {
    var slice := c.slices[(namespace, name)];
    Built(c.services[(namespace, slice.serviceName)], slice)
  }

  /**
    One handled slice event is one operation of the manager on a service whose id is still 0,
    also when that operation panics; an error, or a panic over the slice itself, leaves the
    manager alone. The error is returned exactly when the slice or its service is not known, so a
    slice that is already gone is never deleted.
   */
  method EndpointHandler(mgr: ServiceManager, c: Cluster, namespace: string, name: string)
      returns (outcome: Outcome, ghost op: Op)
    requires mgr.Valid() && !mgr.panicked
    requires Known(c, namespace, name) ==> |Target(c, namespace, name).endpoints| < 0x1_0000
    modifies mgr
    ensures mgr.Valid()
    ensures outcome == Failed <==>
            !((namespace, name) in c.slices && (namespace, c.slices[(namespace, name)].serviceName) in c.services)
    ensures Known(c, namespace, name) ==>
              (outcome == Panicked <==> AnyFaulty(c.slices[(namespace, name)].endpoints) || mgr.panicked)
    ensures Known(c, namespace, name) && !AnyFaulty(c.slices[(namespace, name)].endpoints) ==>
              && OrdersFit(old(mgr.View()), op)
              && (var slice := c.slices[(namespace, name)];
                  var svc := c.services[(namespace, slice.serviceName)];
                  if slice.deleting then op.DeleteOp? && op.key == svc.namespace + "/" + svc.name
                  else op.UpdateOp? && op.svc == Target(c, namespace, name) && BuiltFrom(op.svc, svc, slice))
              && mgr.View() == Step(Written, old(mgr.View()), op)
    ensures !Known(c, namespace, name) || AnyFaulty(c.slices[(namespace, name)].endpoints) ==>
              mgr.View() == old(mgr.View())
  {
    op := DeleteOp("", []);
    if (namespace, name) !in c.slices {
      return Failed, op;
    }
    var slice := c.slices[(namespace, name)];
    if (namespace, slice.serviceName) !in c.services {
      return Failed, op;
    }
    var built := NewService(c.services[(namespace, slice.serviceName)], slice);
    if built.None? {
      return Panicked, op;
    }
    var svc := built.value;
    if slice.deleting {
      ghost var gone := mgr.DeleteService(svc.Key());
      op := DeleteOp(svc.Key(), gone);
    } else {
      ghost var gone, order := mgr.UpdateService(svc);
      op := UpdateOp(svc, gone, order);
    }
    outcome := if mgr.panicked then Panicked else Done;
  }
}
