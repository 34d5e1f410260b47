/**
  Services as the control plane holds them, and how a service port becomes a key of the
  service map.
 */
module Services {
  import opened Words
  import opened Text

  /** Key of the service map (`Service4Key`, `struct lb4_key`); padding is always 0. */
  datatype Frontend = Frontend(address: U32, port: U16, proto: U8)

  datatype Port = Port(protocol: string, port: U16, targetPort: U16)

  datatype Service = Service(namespace: string, name: string, id: U16, address: U32,
                             ports: set<Port>, endpoints: seq<U32>)
  {
    function Key(): string { namespace + "/" + name }
  }

  function ParseProto(protocol: string): U8 {
    if protocol == "TCP" then 6
    else if protocol == "UDP" then 17
    else if protocol == "SCTP" then 132
    else 0
  }

  function FrontendOf(svc: Service, port: Port): Frontend {
    Frontend(svc.address, ByteSwap(port.port), ParseProto(port.protocol))
  }

  /**
    The frontend a client of the port sees: the service's address, the port in network byte order
    as a little-endian host reads it, and the number of the protocol.
   */
  predicate SeenAt(svc: Service, port: Port, f: Frontend) {
    && f.address == svc.address
    && f.port == LoadLittleEndian(StoreBigEndian(port.port))
    && (port.protocol == "TCP" ==> f.proto == 6)
    && (port.protocol == "UDP" ==> f.proto == 17)
    && (port.protocol == "SCTP" ==> f.proto == 132)
    && (port.protocol !in {"TCP", "UDP", "SCTP"} ==> f.proto == 0)
  }

  /** The entry's key is the frontend clients see. */
  lemma FrontendIsSeen(svc: Service, port: Port, f: Frontend)
    ensures SeenAt(svc, port, f) <==> f == FrontendOf(svc, port)
  {
    ByteSwapIsNetworkOrder(port.port);
  }

  /** Services of slash-free namespaces have one key exactly when they have namespace and name in common. */
  lemma KeysEqualIff(a: Service, b: Service)
    requires Free(a.namespace, '/') && Free(b.namespace, '/')
    ensures a.Key() == b.Key() <==> a.namespace == b.namespace && a.name == b.name
  {
    SlashPairs(a.namespace, a.name, b.namespace, b.name);
  }

  /** A slash in a namespace can make two services share a key. */
  lemma SlashedNamespacesCollide(a: Service, b: Service)
    requires a.namespace == "x/y" && a.name == "z" && b.namespace == "x" && b.name == "y/z"
    ensures a.Key() == b.Key()
  {
    assert "x/y" + "/" + "z" == "x" + "/" + "y/z";
  }

  function Frontends(svc: Service): set<Frontend> {
    set p | p in svc.ports :: FrontendOf(svc, p)
  }

  /**
    A service the tables can express: no two of its ports share a frontend (which
    Kubernetes validates) and its endpoints fit the 16-bit slot.
   */
  predicate WellFormed(svc: Service) {
    && |svc.endpoints| < 0x1_0000
    && (forall p, q :: p in svc.ports && q in svc.ports && FrontendOf(svc, p) == FrontendOf(svc, q) ==> p == q)
  }

  predicate SharedTarget(svc: Service) {
    forall p, q :: p in svc.ports && q in svc.ports ==> p.targetPort == q.targetPort
  }

  /** `order` is one iteration over `ports`: each member once, nothing else. */
  ghost predicate Enumerates(order: seq<Port>, ports: set<Port>) {
    && (forall p :: p in order <==> p in ports)
    && (forall i, j :: 0 <= i < j < |order| ==> order[i] != order[j])
  }
}
