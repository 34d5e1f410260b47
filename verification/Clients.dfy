/**
  What a client sees. The results of the other modules, said without the manager's own keys:
  services are told apart by namespace and name, a destination belongs to a service port when it
  has the service's address, the port in network byte order and the protocol's number, and the
  answer is an endpoint with the target port in network byte order.
 */
module Clients {
  import opened Words
  import opened Text
  import opened Services
  import opened Tables
  import opened DataPlane
  import opened Writes
  import opened Machine
  import opened Safety
  import opened Live
  import opened Runs
  import opened Theorems

  // ---------------------------------------------------------------------------
  // Dialling.

  /** A stream or datagram socket connects to port `p` of the service. */
  predicate Dials(dst: Dest, svc: Service, p: Port) {
    && (dst.kind == 1 || dst.kind == 2)
    && SeenAt(svc, p, Frontend(dst.address, dst.port % 0x1_0000, dst.protocol % 0x100))
  }

  /** The endpoint the draw selects, with the target port in network byte order. */
  function Selected(svc: Service, p: Port, draw: U32): Backend
    requires svc.endpoints != []
  {
    Backend(svc.endpoints[draw % |svc.endpoints|], LoadLittleEndian(StoreBigEndian(p.targetPort)))
  }

  lemma DialsIff(dst: Dest, svc: Service, p: Port)
    ensures Dials(dst, svc, p) <==>
            (dst.kind == SOCK_STREAM || dst.kind == SOCK_DGRAM) && KeyOf(dst) == FrontendOf(svc, p)
  {
    FrontendIsSeen(svc, p, KeyOf(dst));
  }

  lemma OfferIsSelected(svc: Service, p: Port, draw: U32)
    ensures Offer(svc, p, draw) == if svc.endpoints == [] then None else Some(Selected(svc, p, draw))
  {
    ByteSwapIsNetworkOrder(p.targetPort);
    if svc.endpoints != [] { RemainderIsMod(draw, |svc.endpoints|); }
  }

  /** After an append of a service with one target port, each client of it gets the endpoint its draw selects. */
  lemma AppendedAnswers(t: Tables, a: Service, order: seq<Port>, p: Port, dst: Dest, draw: U32)
    requires WellFormed(a) && Enumerates(order, a.ports) && SharedTarget(a) && a.endpoints != []
    requires p in a.ports && Dials(dst, a, p)
    ensures Choose(Appended(t, a, order), Appended(t, a, order), dst, draw) == Some(Selected(a, p, draw))
  {
    var u := Appended(t, a, order);
    DialsIff(dst, a, p);
    AppendCompletes(t, a, order);
    forall slot: U16 | 1 <= slot <= |a.endpoints|
      ensures BackendKey(a.id, slot) in u.backends && u.backends[BackendKey(a.id, slot)] == SlotValue(a, p, slot)
    {
      AppendedBackends(t, a, order, BackendKey(a.id, slot));
      assert p in order && order[|order| - 1] in order;
    }
    ChooseStored(u, a, p, dst, draw);
    OfferIsSelected(a, p, draw);
  }

  // ---------------------------------------------------------------------------
  // The table by namespace and name.

  type Table = map<(string, string), Service>

  /** The service's key, from the name it has in the table. */
  function Slashed(who: (string, string)): string { who.0 + "/" + who.1 }

  function NamedStep(table: Table, op: Op): Table {
    match op
    case UpdateOp(svc, _, _) => table[(svc.namespace, svc.name) := svc]
    case DeleteOp(key, _) => map who | who in table && who.0 + "/" + who.1 != key :: table[who]
  }

  /** What the last update or delete of each namespace and name left. */
  function NamedRun(ops: seq<Op>): Table {
    if ops == [] then map[] else NamedStep(NamedRun(ops[..|ops| - 1]), ops[|ops| - 1])
  }

  /** Namespaces have no slash, as in Kubernetes. */
  predicate ProperNames(ops: seq<Op>) { forall op :: op in ops && op.UpdateOp? ==> Free(op.svc.namespace, '/') }

  lemma ProperInit(ops: seq<Op>)
    requires ops != [] && ProperNames(ops)
    ensures ProperNames(ops[..|ops| - 1])
    ensures ops[|ops| - 1].UpdateOp? ==> Free(ops[|ops| - 1].svc.namespace, '/')
  {
    assert ops[|ops| - 1] in ops;
  }

  ghost predicate NamesFit(table: Table) {
    forall who :: who in table ==>
      Free(who.0, '/') && table[who].namespace == who.0 && table[who].name == who.1
  }

  /** `abs` is `table`, under the joined names. */
  ghost predicate SameTable(table: Table, abs: map<string, Service>) {
    && NamesFit(table)
    && (forall who :: who in table ==> Slashed(who) in abs && abs[Slashed(who)] == table[who])
    && (forall key :: key in abs ==>
          var who := (abs[key].namespace, abs[key].name); who in table && Slashed(who) == key)
  }

  lemma SlashedIff(table: Table, who: (string, string), svc: Service)
    requires NamesFit(table) && who in table && Free(svc.namespace, '/')
    ensures Slashed(who) == svc.Key() <==> who == (svc.namespace, svc.name)
  {
    SlashPairs(who.0, who.1, svc.namespace, svc.name);
  }

  lemma UpdateSame(table: Table, abs: map<string, Service>, svc: Service)
    requires SameTable(table, abs) && Free(svc.namespace, '/')
    ensures SameTable(table[(svc.namespace, svc.name) := svc], abs[svc.Key() := svc])
  {
    var me := (svc.namespace, svc.name);
    var table', abs' := table[me := svc], abs[svc.Key() := svc];
    assert Slashed(me) == svc.Key();
    forall who | who in table' ensures Slashed(who) in abs' && abs'[Slashed(who)] == table'[who] {
      if who != me { SlashedIff(table, who, svc); }
    }
  }

  lemma {:induction false} NamedIsAbs(ops: seq<Op>)
    requires ProperNames(ops)
    ensures SameTable(NamedRun(ops), AbsRun(ops))
  {
    if ops != [] {
      ProperInit(ops);
      var init, op := ops[..|ops| - 1], ops[|ops| - 1];
      NamedIsAbs(init);
      if op.UpdateOp? { UpdateSame(NamedRun(init), AbsRun(init), op.svc); }
    }
  }

  /** The joined names of a table are as many as its entries. */
  lemma SlashedSize(table: Table, abs: map<string, Service>)
    requires SameTable(table, abs)
    ensures |abs| == |table|
  {
    forall x, y | x in table.Keys && y in table.Keys && Slashed(x) == Slashed(y) ensures x == y {
      SlashPairs(x.0, x.1, y.0, y.1);
    }
    forall key | key in abs.Keys ensures exists who :: who in table.Keys && Slashed(who) == key {
      assert (abs[key].namespace, abs[key].name) in table.Keys;
    }
    ImageSize(table.Keys, abs.Keys, Slashed);
    assert |abs| == |abs.Keys| && |table| == |table.Keys|;
  }

  /** After a run that goes through exactly the services of the table are listed, each under its joined name. */
  lemma ListedByName(code: Code, ops: seq<Op>)
    requires FreshOps(ops) && RunFits(code, ops) && ProperNames(ops) && !Run(code, ops).crashed
    ensures var listed, table := Run(code, ops).services, NamedRun(ops);
            && |listed| == |table|
            && (forall who :: who in table ==>
                  && who.0 + "/" + who.1 in listed
                  && listed[who.0 + "/" + who.1] == table[who].(id := listed[who.0 + "/" + who.1].id)
                  && table[who].namespace == who.0 && table[who].name == who.1)
  {
    var listed, table := Run(code, ops).services, NamedRun(ops);
    RunRepresents(code, ops);
    NamedIsAbs(ops);
    SlashedSize(table, AbsRun(ops));
    assert |listed| == |listed.Keys| && |AbsRun(ops)| == |AbsRun(ops).Keys|;
    forall who | who in table ensures who.0 + "/" + who.1 in listed {
      assert Slashed(who) in AbsRun(ops);
    }
  }

  // ---------------------------------------------------------------------------
  // Services apart.

  /** No destination dials two services. */
  ghost predicate Apart(table: Table) {
    forall who, p, who', p', dst :: Reaches(table, dst, who, p) && Reaches(table, dst, who', p') ==> who == who'
  }

  predicate Reaches(table: Table, dst: Dest, who: (string, string), p: Port) {
    who in table && p in table[who].ports && Dials(dst, table[who], p)
  }

  ghost predicate ApartRun(ops: seq<Op>) {
    Apart(NamedRun(ops)) && (ops != [] ==> ApartRun(ops[..|ops| - 1]))
  }

  lemma ApartIsDisjoint(table: Table, abs: map<string, Service>)
    requires SameTable(table, abs) && Apart(table)
    ensures Disjoint(abs)
  {
    forall k, l | k in abs && l in abs && k != l ensures Frontends(abs[k]) !! Frontends(abs[l]) {
      forall f | f in Frontends(abs[k]) && f in Frontends(abs[l]) ensures false {
        OneDoor(table, abs, k, l, f);
      }
    }
  }

  lemma OneDoor(table: Table, abs: map<string, Service>, k: string, l: string, f: Frontend)
    requires SameTable(table, abs) && Apart(table) && k in abs && l in abs
    requires f in Frontends(abs[k]) && f in Frontends(abs[l])
    ensures k == l
  {
    var p :| p in abs[k].ports && FrontendOf(abs[k], p) == f;
    var q :| q in abs[l].ports && FrontendOf(abs[l], q) == f;
    var who, who' := (abs[k].namespace, abs[k].name), (abs[l].namespace, abs[l].name);
    DialsIff(DestFor(f), abs[k], p);
    DialsIff(DestFor(f), abs[l], q);
    assert Reaches(table, DestFor(f), who, p) && Reaches(table, DestFor(f), who', q);
  }

  lemma {:induction false} ApartRunIsDisjoint(ops: seq<Op>)
    requires ProperNames(ops) && ApartRun(ops)
    ensures DisjointRun(ops)
  {
    NamedIsAbs(ops);
    ApartIsDisjoint(NamedRun(ops), AbsRun(ops));
    if ops != [] {
      ProperInit(ops);
      ApartRunIsDisjoint(ops[..|ops| - 1]);
    }
  }

  // ---------------------------------------------------------------------------
  // Which runs go through.

  /** A service without ports or without endpoints. */
  predicate Bare(svc: Service) { svc.ports == {} || svc.endpoints == [] }

  function LivePorts(table: Table): set<((string, string), Port)> {
    set who, p | who in table && p in table[who].ports :: (who, p)
  }

  function LiveEndpoints(table: Table): set<((string, string), int)> {
    set who, i | who in table && table[who].ports != {} && 0 <= i < |table[who].endpoints| :: (who, i)
  }

  /** The operation goes through: what it replaces or removes is bare, as written, and what results fits. */
  predicate NamedAccepts(code: Code, table: Table, op: Op) {
    match op
    case DeleteOp(key, _) =>
      code.Written? ==> forall who :: who in table && who.0 + "/" + who.1 == key ==> Bare(table[who])
    case UpdateOp(svc, _, _) =>
      var who := (svc.namespace, svc.name);
      && (code.Written? && who in table ==> Bare(table[who]))
      && |LivePorts(table[who := svc])| <= 65536
      && (code.Repaired? ==> |LiveEndpoints(table[who := svc])| <= 65536)
  }

  predicate NamedAccepted(code: Code, ops: seq<Op>) {
    ops == [] ||
    (NamedAccepted(code, ops[..|ops| - 1]) && NamedAccepts(code, NamedRun(ops[..|ops| - 1]), ops[|ops| - 1]))
  }

  /** The frontend of a live port. */
  function DoorOf(table: Table, x: ((string, string), Port)): Frontend {
    if x.0 in table then FrontendOf(table[x.0], x.1) else Frontend(0, 0, 0)
  }

  lemma DoorsDiffer(table: Table, abs: map<string, Service>, x: ((string, string), Port), y: ((string, string), Port))
    requires SameTable(table, abs) && Keyed(abs) && Disjoint(abs) && x in LivePorts(table) && y in LivePorts(table)
    requires DoorOf(table, x) == DoorOf(table, y)
    ensures x == y
  {
    var f := DoorOf(table, x);
    assert Serves(abs, Slashed(x.0), x.1, f) && Serves(abs, Slashed(y.0), y.1, f);
    ServesOnce(abs, Slashed(x.0), x.1, Slashed(y.0), y.1, f);
    SlashPairs(x.0.0, x.0.1, y.0.0, y.0.1);
  }

  lemma PortCount(table: Table, abs: map<string, Service>)
    requires SameTable(table, abs) && Keyed(abs) && Disjoint(abs)
    ensures |AllFrontends(abs)| == |LivePorts(table)|
  {
    forall x, y | x in LivePorts(table) && y in LivePorts(table) && DoorOf(table, x) == DoorOf(table, y)
      ensures x == y
    {
      DoorsDiffer(table, abs, x, y);
    }
    forall x | x in LivePorts(table) ensures DoorOf(table, x) in AllFrontends(abs) {
      assert Slashed(x.0) in abs;
    }
    forall f | f in AllFrontends(abs) ensures exists x :: x in LivePorts(table) && DoorOf(table, x) == f {
      var key, p :| key in abs && p in abs[key].ports && f == FrontendOf(abs[key], p);
      var who := (abs[key].namespace, abs[key].name);
      assert (who, p) in LivePorts(table) && DoorOf(table, (who, p)) == f;
    }
    ImageSize(LivePorts(table), AllFrontends(abs), x => DoorOf(table, x));
  }

  function SlotFor(x: ((string, string), int)): Slot { Slot(Slashed(x.0), x.1) }

  lemma EndpointCount(table: Table, abs: map<string, Service>)
    requires SameTable(table, abs)
    ensures |AllSlots(abs)| == |LiveEndpoints(table)|
  {
    forall x, y | x in LiveEndpoints(table) && y in LiveEndpoints(table) && SlotFor(x) == SlotFor(y) ensures x == y {
      SlashPairs(x.0.0, x.0.1, y.0.0, y.0.1);
    }
    forall x | x in LiveEndpoints(table) ensures SlotFor(x) in AllSlots(abs) {
      assert Slashed(x.0) in abs;
      SlotIsLive(abs, SlotFor(x));
    }
    forall s | s in AllSlots(abs) ensures exists x :: x in LiveEndpoints(table) && SlotFor(x) == s {
      SlotIsLive(abs, s);
      var who := (abs[s.key].namespace, abs[s.key].name);
      assert (who, s.index) in LiveEndpoints(table) && SlotFor((who, s.index)) == s;
    }
    ImageSize(LiveEndpoints(table), AllSlots(abs), SlotFor);
  }

  lemma UpdateAcceptedIff(code: Code, table: Table, abs: map<string, Service>,
                          svc: Service, gone: seq<Port>, order: seq<Port>)
    requires SameTable(table, abs) && Free(svc.namespace, '/')
    requires Keyed(abs[svc.Key() := svc]) && Disjoint(abs[svc.Key() := svc])
    ensures NamedAccepts(code, table, UpdateOp(svc, gone, order)) <==> Accepts(code, abs, UpdateOp(svc, gone, order))
  {
    var who := (svc.namespace, svc.name);
    UpdateSame(table, abs, svc);
    PortCount(table[who := svc], abs[svc.Key() := svc]);
    EndpointCount(table[who := svc], abs[svc.Key() := svc]);
    HeldIff(table, abs, svc);
  }

  /** The table has the service's name exactly when the other has its key, and for the same service. */
  lemma HeldIff(table: Table, abs: map<string, Service>, svc: Service)
    requires SameTable(table, abs) && Free(svc.namespace, '/')
    ensures var who := (svc.namespace, svc.name);
            (who in table <==> svc.Key() in abs) && (who in table ==> table[who] == abs[svc.Key()])
  {
    var who := (svc.namespace, svc.name);
    assert Slashed(who) == svc.Key();
    if svc.Key() in abs {
      var held := abs[svc.Key()];
      SlashPairs(held.namespace, held.name, svc.namespace, svc.name);
    }
  }

  lemma DeleteAcceptedIff(code: Code, table: Table, abs: map<string, Service>, key: string, gone: seq<Port>)
    requires SameTable(table, abs)
    ensures NamedAccepts(code, table, DeleteOp(key, gone)) <==> Accepts(code, abs, DeleteOp(key, gone))
  {
    forall who | who in table && who.0 + "/" + who.1 == key ensures key in abs && abs[key] == table[who] {
      assert Slashed(who) == key;
    }
    if key in abs {
      var who := (abs[key].namespace, abs[key].name);
      assert who in table && Slashed(who) == key;
    }
  }

  lemma {:induction false} AbsKeyed(ops: seq<Op>)
    requires FreshOps(ops)
    ensures Keyed(AbsRun(ops))
  {
    if ops != [] {
      FreshInit(ops);
      AbsKeyed(ops[..|ops| - 1]);
    }
  }

  lemma {:induction false} NamedAcceptedIff(code: Code, ops: seq<Op>)
    requires FreshOps(ops) && ProperNames(ops) && DisjointRun(ops)
    ensures NamedAccepted(code, ops) <==> AllAccepted(code, ops)
  {
    if ops != [] {
      FreshInit(ops);
      ProperInit(ops);
      var init := ops[..|ops| - 1];
      NamedAcceptedIff(code, init);
      NamedIsAbs(init);
      AbsKeyed(ops);
      match ops[|ops| - 1]
      case DeleteOp(key, gone) => DeleteAcceptedIff(code, NamedRun(init), AbsRun(init), key, gone);
      case UpdateOp(svc, gone, order) =>
        UpdateAcceptedIff(code, NamedRun(init), AbsRun(init), svc, gone, order);
    }
  }

  /** A run goes through exactly when each operation is accepted, given what namespaces and names hold by then. */
  lemma GoesThroughIff(code: Code, ops: seq<Op>)
    requires FreshOps(ops) && RunFits(code, ops) && ProperNames(ops) && ApartRun(ops)
    requires code.Repaired? ==> Updates(ops) < ID_LIMIT
    ensures !Run(code, ops).crashed <==> NamedAccepted(code, ops)
  {
    ApartRunIsDisjoint(ops);
    NamedAcceptedIff(code, ops);
    RunGoesThrough(code, ops);
  }

  // ---------------------------------------------------------------------------
  // Answers between operations.

  /** The right answer: the selected endpoint of the service that is dialled, and none if it has none or nobody is. */
  ghost predicate Right(table: Table, dst: Dest, draw: U32, answer: Option<Backend>) {
    && (forall who, p :: Reaches(table, dst, who, p) && table[who].endpoints != [] ==>
          answer == Some(Selected(table[who], p, draw)))
    && ((forall who, p :: Reaches(table, dst, who, p) ==> table[who].endpoints == []) ==> answer == None)
  }

  ghost predicate AllRight(t: Tables, table: Table) {
    forall dst, draw :: Right(table, dst, draw, Choose(t, t, dst, draw))
  }

  lemma ServesIff(table: Table, abs: map<string, Service>, dst: Dest, key: string, p: Port)
    requires SameTable(table, abs) && (dst.kind == SOCK_STREAM || dst.kind == SOCK_DGRAM)
    ensures Serves(abs, key, p, KeyOf(dst)) ==>
              var who := (abs[key].namespace, abs[key].name); Reaches(table, dst, who, p) && table[who] == abs[key]
  {
    if Serves(abs, key, p, KeyOf(dst)) { DialsIff(dst, abs[key], p); }
  }

  lemma ReachedServes(table: Table, abs: map<string, Service>, dst: Dest, who: (string, string), p: Port)
    requires SameTable(table, abs) && Reaches(table, dst, who, p)
    ensures dst.kind == SOCK_STREAM || dst.kind == SOCK_DGRAM
    ensures Serves(abs, Slashed(who), p, KeyOf(dst)) && abs[Slashed(who)] == table[who]
  {
    DialsIff(dst, table[who], p);
  }

  lemma RightIff(table: Table, abs: map<string, Service>, dst: Dest, draw: U32, answer: Option<Backend>)
    requires SameTable(table, abs) && Keyed(abs) && Disjoint(abs)
    ensures Right(table, dst, draw, answer) <==> answer == AbsChoose(abs, dst, draw)
  {
    if who, p :| Reaches(table, dst, who, p) {
      ReachedAnswer(table, abs, dst, draw, who, p);
      forall who', p' | Reaches(table, dst, who', p') ensures who' == who && p' == p {
        OneReached(table, abs, dst, who, p, who', p');
      }
    } else {
      if dst.kind == SOCK_STREAM || dst.kind == SOCK_DGRAM {
        forall key, p ensures !Serves(abs, key, p, KeyOf(dst)) { ServesIff(table, abs, dst, key, p); }
      }
    }
  }

  lemma ReachedAnswer(table: Table, abs: map<string, Service>, dst: Dest, draw: U32, who: (string, string), p: Port)
    requires SameTable(table, abs) && Keyed(abs) && Disjoint(abs) && Reaches(table, dst, who, p)
    ensures AbsChoose(abs, dst, draw) ==
            if table[who].endpoints == [] then None else Some(Selected(table[who], p, draw))
  {
    ReachedServes(table, abs, dst, who, p);
    AbsChooseAt(abs, Slashed(who), p, dst, draw);
    OfferIsSelected(table[who], p, draw);
  }

  lemma OneReached(table: Table, abs: map<string, Service>, dst: Dest,
                   who: (string, string), p: Port, who': (string, string), p': Port)
    requires SameTable(table, abs) && Keyed(abs) && Disjoint(abs)
    requires Reaches(table, dst, who, p) && Reaches(table, dst, who', p')
    ensures who == who' && p == p'
  {
    ReachedServes(table, abs, dst, who, p);
    ReachedServes(table, abs, dst, who', p');
    ServesOnce(abs, Slashed(who), p, Slashed(who'), p', KeyOf(dst));
    SlashPairs(who.0, who.1, who'.0, who'.1);
  }

  /** When services answer right: repaired, each has one target port; as written, all agree slot by slot. */
  ghost predicate Harmless(code: Code, table: Table) {
    if code.Repaired? then forall who :: who in table ==> Uniform(table[who])
    else forall who, who' :: who in table && who' in table ==> Agree(table[who], table[who'])
  }

  lemma AgreesIsRight(t: Tables, table: Table, abs: map<string, Service>)
    requires SameTable(table, abs) && Keyed(abs) && Disjoint(abs)
    ensures AllRight(t, table) <==> Agrees(t, abs)
  {
    forall dst, draw
      ensures Right(table, dst, draw, Choose(t, t, dst, draw)) <==> Choose(t, t, dst, draw) == AbsChoose(abs, dst, draw)
    {
      RightIff(table, abs, dst, draw, Choose(t, t, dst, draw));
    }
  }

  lemma HarmlessIff(code: Code, table: Table, abs: map<string, Service>)
    requires SameTable(table, abs)
    ensures code.Repaired? ==> (Harmless(code, table) <==> forall key :: key in abs ==> Uniform(abs[key]))
    ensures code.Written? ==> (Harmless(code, table) <==>
                               forall k, l :: k in abs && l in abs ==> Agree(abs[k], abs[l]))
  {
    forall who | who in table ensures Slashed(who) in abs && abs[Slashed(who)] == table[who] {}
    forall key | key in abs ensures (abs[key].namespace, abs[key].name) in table {}
    if code.Repaired? {
      forall key | key in abs && Harmless(code, table) ensures Uniform(abs[key]) {
        assert table[(abs[key].namespace, abs[key].name)] == abs[key];
      }
    } else {
      forall k, l | k in abs && l in abs && Harmless(code, table) ensures Agree(abs[k], abs[l]) {
        assert table[(abs[k].namespace, abs[k].name)] == abs[k] && table[(abs[l].namespace, abs[l].name)] == abs[l];
      }
    }
  }

  /** Between operations every client gets the right answer exactly when the live services are harmless. */
  lemma AnswersRightIff(code: Code, ops: seq<Op>)
    requires FreshOps(ops) && RunFits(code, ops) && ProperNames(ops) && ApartRun(ops) && !Run(code, ops).crashed
    requires code.Repaired? ==> Updates(ops) < ID_LIMIT
    ensures AllRight(Run(code, ops).Now(), NamedRun(ops)) <==> Harmless(code, NamedRun(ops))
  {
    ApartRunIsDisjoint(ops);
    RunGoesThrough(code, ops);
    NamedIsAbs(ops);
    AbsKeyed(ops);
    AgreesIsRight(Run(code, ops).Now(), NamedRun(ops), AbsRun(ops));
    HarmlessIff(code, NamedRun(ops), AbsRun(ops));
    if code.Repaired? { RepairedAgreesIff(ops); } else { WrittenAgreesIff(ops); }
  }

  /** A connect after a run: the context's address and port are the selected endpoint's, or are left alone. */
  method Dial(ghost code: Code, ghost ops: seq<Op>, t: Tables, dst: Dest, draw: U32) returns (address: U32, port: U32)
    requires FreshOps(ops) && RunFits(code, ops) && ProperNames(ops) && ApartRun(ops) && !Run(code, ops).crashed
    requires code.Repaired? ==> Updates(ops) < ID_LIMIT
    requires Harmless(code, NamedRun(ops)) && t == Run(code, ops).Now()
    ensures forall who, p :: Reaches(NamedRun(ops), dst, who, p) && NamedRun(ops)[who].endpoints != [] ==>
              var endpoints := NamedRun(ops)[who].endpoints;
              address == endpoints[draw % |endpoints|] && port == LoadLittleEndian(StoreBigEndian(p.targetPort))
    ensures (forall who, p :: Reaches(NamedRun(ops), dst, who, p) ==> NamedRun(ops)[who].endpoints == []) ==>
              address == dst.address && port == dst.port
  {
    AnswersRightIff(code, ops);
    assert Right(NamedRun(ops), dst, draw, Choose(t, t, dst, draw));
    var ctx := new SockAddr(dst);
    var _ := ctx.Connect4(t, t, draw);
    address, port := ctx.userIp4, ctx.userPort;
  }

  // ---------------------------------------------------------------------------
  // Answers during operations.

  /** In a safe run, a connect at any two points that is rewritten goes to the selected endpoint of what it dials. */
  lemma SafeAnswer(code: Code, ops: seq<Op>, i: nat, j: nat, dst: Dest, draw: U32) returns (op: Op, p: Port)
    requires FreshOps(ops) && RunFits(code, ops) && Safe(Run(code, ops).trace)
    requires i <= j < |Run(code, ops).trace|
    requires Choose(Run(code, ops).trace[i], Run(code, ops).trace[j], dst, draw).Some?
    ensures op in ops && op.UpdateOp? && p in op.svc.ports && op.svc.endpoints != [] && Dials(dst, op.svc, p)
    ensures Choose(Run(code, ops).trace[i], Run(code, ops).trace[j], dst, draw) == Some(Selected(op.svc, p, draw))
  {
    var trace, pool := Run(code, ops).trace, Run(code, ops).pool;
    RunHistory(code, ops);
    assert SafePair(trace[i], trace[j]);
    assert SafeRead(trace[i], trace[j], dst, draw) && CutInv(trace[i], pool);
    assert EntryFrom(pool, trace[i], KeyOf(dst));
    var a := trace[i].owner[KeyOf(dst)];
    PoolIsAskedFor(code, ops, a);
    op :| op in ops && op.UpdateOp? && a == op.svc.(id := a.id);
    p := OfferedAt(a, op.svc, dst, draw, Choose(trace[i], trace[j], dst, draw).value);
  }

  lemma OfferedAt(a: Service, svc: Service, dst: Dest, draw: U32, b: Backend) returns (p: Port)
    requires Offers(a, KeyOf(dst), draw, b) && a == svc.(id := a.id)
    requires dst.kind == SOCK_STREAM || dst.kind == SOCK_DGRAM
    ensures p in svc.ports && svc.endpoints != [] && Dials(dst, svc, p) && b == Selected(svc, p, draw)
  {
    p :| p in a.ports && FrontendOf(a, p) == KeyOf(dst) &&
         b == Backend(a.endpoints[Remainder(draw, |a.endpoints|)], ByteSwap(p.targetPort));
    assert FrontendOf(svc, p) == FrontendOf(a, p);
    DialsIff(dst, svc, p);
    OfferIsSelected(svc, p, draw);
  }
}
