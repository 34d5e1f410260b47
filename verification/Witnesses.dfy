/**
  Three short runs where the code as written misses what the theorems ask for: two services
  that get each other's endpoints, an update that panics, and a service with two target ports.
 */
module Witnesses {
  import opened Services
  import opened Tables
  import opened Writes
  import opened Machine
  import opened Safety
  import opened Live
  import opened Runs
  import opened Theorems

  const HTTP := Port("TCP", 80, 8080)
  const ALT := Port("TCP", 81, 9090)

  /** 10.0.0.1:80 with one endpoint, 10.1.0.1, and 10.0.0.2:80 with one endpoint, 10.1.0.2. */
  const WEB := Service("shop", "web", 0, 0x0100_000A, {HTTP}, [0x0100_010A])
  const DB := Service("shop", "db", 0, 0x0200_000A, {HTTP}, [0x0200_010A])

  /** 10.0.0.3 with two ports that lead to two target ports. */
  const MIXED := Service("shop", "mixed", 0, 0x0300_000A, {HTTP, ALT}, [0x0300_010A])

  const ADD_WEB := UpdateOp(WEB, [HTTP], [HTTP])
  const ADD_DB := UpdateOp(DB, [HTTP], [HTTP])
  const ADD_MIXED := UpdateOp(MIXED, [HTTP, ALT], [HTTP, ALT])

  lemma KeysDiffer()
    ensures WEB.Key() != DB.Key()
  {
    assert |WEB.Key()| == 8 && |DB.Key()| == 7;
  }

  lemma Ports()
    ensures Enumerates([HTTP], {HTTP}) && Enumerates([HTTP, ALT], {HTTP, ALT})
    ensures WellFormed(WEB) && WellFormed(DB) && WellFormed(MIXED)
  {
    assert FrontendOf(MIXED, HTTP).port == 80 * 0x100 && FrontendOf(MIXED, ALT).port == 81 * 0x100;
  }

  /** A run of one update on nothing. */
  lemma OneUpdate(code: Code, op: Op)
    requires op.UpdateOp? && Fresh(op) && Enumerates(op.order, op.svc.ports)
    ensures FreshOps([op]) && RunFits(code, [op]) && Updates([op]) == 1
    ensures Run(code, [op]) == Append(code, INITIAL, op.svc, op.order)
    ensures AbsRun([op]) == map[op.svc.Key() := op.svc] && DisjointRun([op])
  {
    var ops := [op];
    assert ops[..0] == [];
    assert FreshOps(ops) && RunFits(code, []) && Run(code, []) == INITIAL;
    assert AbsRun([]) == map[];
    assert DisjointRun([]);
  }

  /** A second update, of another service or of the same one. */
  lemma TwoUpdates(code: Code, x: Op, y: Op)
    requires x.UpdateOp? && y.UpdateOp? && Fresh(x) && Fresh(y)
    requires Enumerates(x.order, x.svc.ports) && Enumerates(y.order, y.svc.ports)
    requires x.svc.Key() == y.svc.Key() ==> Enumerates(y.gone, x.svc.ports)
    requires x.svc.Key() != y.svc.Key() ==> Frontends(x.svc) !! Frontends(y.svc)
    ensures FreshOps([x, y]) && RunFits(code, [x, y]) && Updates([x, y]) == 2
    ensures AbsRun([x, y]) == map[x.svc.Key() := x.svc][y.svc.Key() := y.svc] && DisjointRun([x, y])
  {
    var ops := [x, y];
    assert ops[..1] == [x];
    OneUpdate(code, x);
    AssignedKeeps({}, x.svc);
    assert FreshOps(ops);
    var s := Run(code, [x]);
    assert OrdersFit(s, y);
    assert Updates(ops) == Updates([x]) + 1;
    assert AbsRun(ops) == AbsStep(AbsRun([x]), y);
    assert Disjoint(AbsRun(ops));
  }

  /** At most two ports and two endpoints in all fit any map. */
  lemma FewFit(abs: map<string, Service>, fs: set<Frontend>, ss: set<Slot>)
    requires AllFrontends(abs) <= fs && |fs| <= 2 && AllSlots(abs) <= ss && |ss| <= 2
    ensures |AllFrontends(abs)| <= CAPACITY && |AllSlots(abs)| <= CAPACITY
  {
    SubsetSize(AllFrontends(abs), fs);
    SubsetSize(AllSlots(abs), ss);
  }

  predicate Tiny(svc: Service, p: Port) { svc.ports == {p} && |svc.endpoints| == 1 }

  lemma OneTinyFits(x: Service, p: Port)
    requires Tiny(x, p)
    ensures var abs := map[x.Key() := x]; |AllFrontends(abs)| <= CAPACITY && |AllSlots(abs)| <= CAPACITY
  {
    FewFit(map[x.Key() := x], {FrontendOf(x, p)}, {Slot(x.Key(), 0)});
  }

  lemma TwoTinyFit(x: Service, p: Port, y: Service, q: Port)
    requires Tiny(x, p) && Tiny(y, q)
    ensures var abs := map[x.Key() := x][y.Key() := y];
            |AllFrontends(abs)| <= CAPACITY && |AllSlots(abs)| <= CAPACITY
  {
    FewFit(map[x.Key() := x][y.Key() := y], {FrontendOf(x, p), FrontendOf(y, q)}, {Slot(x.Key(), 0), Slot(y.Key(), 0)});
  }

  lemma AcceptedStep(code: Code, init: seq<Op>, op: Op, abs: map<string, Service>)
    requires AbsRun(init) == abs
    ensures AllAccepted(code, init + [op]) <==> AllAccepted(code, init) && Accepts(code, abs, op)
  {
    assert (init + [op])[..|init|] == init;
  }

  lemma OneAccepted(code: Code, x: Op)
    requires x.UpdateOp? && |AllFrontends(map[x.svc.Key() := x.svc])| <= CAPACITY
    requires |AllSlots(map[x.svc.Key() := x.svc])| <= CAPACITY
    ensures AllAccepted(code, [x])
  {
    var nothing: map<string, Service> := map[];
    assert nothing[x.svc.Key() := x.svc] == map[x.svc.Key() := x.svc];
    AcceptedStep(code, [], x, nothing);
    assert [] + [x] == [x];
  }

  lemma OneTinyAccepted(code: Code, x: Op, p: Port)
    requires x.UpdateOp? && Tiny(x.svc, p)
    ensures AllAccepted(code, [x])
  {
    OneTinyFits(x.svc, p);
    OneAccepted(code, x);
  }

  lemma AbsRunOfOne(x: Op)
    requires x.UpdateOp?
    ensures AbsRun([x]) == map[x.svc.Key() := x.svc]
  {
    assert [x][..0] == [];
    assert AbsRun([]) == map[];
  }

  /** The second of two updates is accepted exactly when the first left nothing the code cannot remove. */
  lemma TwoAccepted(code: Code, x: Op, p: Port, y: Op, q: Port)
    requires x.UpdateOp? && y.UpdateOp? && Fresh(x) && Enumerates(x.order, x.svc.ports)
    requires Tiny(x.svc, p) && Tiny(y.svc, q)
    ensures AllAccepted(code, [x, y]) <==> code.Repaired? || x.svc.Key() != y.svc.Key()
  {
    OneTinyAccepted(code, x, p);
    AbsRunOfOne(x);
    AcceptedStep(code, [x], y, map[x.svc.Key() := x.svc]);
    assert [x] + [y] == [x, y];
    SecondAccepted(code, x.svc, p, y, q);
  }

  lemma SecondAccepted(code: Code, x: Service, p: Port, y: Op, q: Port)
    requires y.UpdateOp? && Tiny(x, p) && Tiny(y.svc, q)
    ensures Accepts(code, map[x.Key() := x], y) <==> code.Repaired? || x.Key() != y.svc.Key()
  {
    TwoTinyFit(x, p, y.svc, q);
    assert p in x.ports;
  }

  /** Two services with one port and one endpoint each: as written they disturb each other, repaired they do not. */
  lemma TwoServices(x: Op, p: Port, y: Op, q: Port)
    requires x.UpdateOp? && y.UpdateOp? && Fresh(x) && Fresh(y)
    requires Enumerates(x.order, x.svc.ports) && Enumerates(y.order, y.svc.ports)
    requires x.svc.Key() != y.svc.Key() && Frontends(x.svc) !! Frontends(y.svc)
    requires Tiny(x.svc, p) && Tiny(y.svc, q) && x.svc.endpoints[0] != y.svc.endpoints[0]
    ensures FreshOps([x, y])
    ensures !Run(Written, [x, y]).crashed
    ensures !Agrees(Run(Written, [x, y]).Now(), AbsRun([x, y])) && !Safe(Run(Written, [x, y]).trace)
    ensures Agrees(Run(Repaired, [x, y]).Now(), AbsRun([x, y])) && Safe(Run(Repaired, [x, y]).trace)
  {
    TinyFacts(x.svc, p, y.svc, q);
    TwoUpdates(Written, x, y);
    TwoAccepted(Written, x, p, y, q);
    TwoWritten(x, y);
    TwoUpdates(Repaired, x, y);
    TwoAccepted(Repaired, x, p, y, q);
    TwoRepaired(x, y);
  }

  lemma TinyFacts(x: Service, p: Port, y: Service, q: Port)
    requires Tiny(x, p) && Tiny(y, q) && x.endpoints[0] != y.endpoints[0]
    ensures !Agree(x, y) && Uniform(x) && Uniform(y)
  {
    assert p in x.ports && q in y.ports && !SameSlot(x, y, p, q, 0);
  }

  lemma TwoWritten(x: Op, y: Op)
    requires x.UpdateOp? && y.UpdateOp? && x.svc.Key() != y.svc.Key() && !Agree(x.svc, y.svc)
    requires FreshOps([x, y]) && RunFits(Written, [x, y]) && DisjointRun([x, y]) && AllAccepted(Written, [x, y])
    requires AbsRun([x, y]) == map[x.svc.Key() := x.svc][y.svc.Key() := y.svc]
    ensures !Run(Written, [x, y]).crashed
    ensures !Agrees(Run(Written, [x, y]).Now(), AbsRun([x, y])) && !Safe(Run(Written, [x, y]).trace)
  {
    var ops := [x, y];
    RunGoesThrough(Written, ops);
    WrittenAgreesIff(ops);
    assert x.svc.Key() in AbsRun(ops) && y.svc.Key() in AbsRun(ops);
    WrittenSafeIff(ops);
    assert x in ops && y in ops;
  }

  lemma TwoRepaired(x: Op, y: Op)
    requires x.UpdateOp? && y.UpdateOp? && Uniform(x.svc) && Uniform(y.svc)
    requires FreshOps([x, y]) && RunFits(Repaired, [x, y]) && DisjointRun([x, y]) && AllAccepted(Repaired, [x, y])
    requires Updates([x, y]) == 2 && AbsRun([x, y]) == map[x.svc.Key() := x.svc][y.svc.Key() := y.svc]
    ensures Agrees(Run(Repaired, [x, y]).Now(), AbsRun([x, y])) && Safe(Run(Repaired, [x, y]).trace)
  {
    RepairedAgreesIff([x, y]);
    RepairedSafe([x, y]);
  }

  /** Updating a service that has one port and one endpoint: as written the delete panics, repaired it goes through. */
  lemma UpdateTwice(x: Op, p: Port)
    requires x.UpdateOp? && Fresh(x) && Tiny(x.svc, p)
    requires Enumerates(x.order, x.svc.ports) && Enumerates(x.gone, x.svc.ports)
    ensures FreshOps([x, x]) && Run(Written, [x, x]).crashed && !Run(Repaired, [x, x]).crashed
  {
    TwoUpdates(Written, x, x);
    TwoUpdates(Repaired, x, x);
    TwoAccepted(Written, x, p, x, p);
    TwoAccepted(Repaired, x, p, x, p);
    RunGoesThrough(Written, [x, x]);
    RunGoesThrough(Repaired, [x, x]);
  }

  /**
    Adding two services: as written both get id 1, so connects disagree with the abstract table
    and are unsafe while the second is being added; repaired neither happens.
   */
  lemma WrittenMixesServices()
    ensures FreshOps([ADD_WEB, ADD_DB])
    ensures !Run(Written, [ADD_WEB, ADD_DB]).crashed
    ensures !Agrees(Run(Written, [ADD_WEB, ADD_DB]).Now(), AbsRun([ADD_WEB, ADD_DB]))
    ensures !Safe(Run(Written, [ADD_WEB, ADD_DB]).trace)
    ensures Agrees(Run(Repaired, [ADD_WEB, ADD_DB]).Now(), AbsRun([ADD_WEB, ADD_DB]))
    ensures Safe(Run(Repaired, [ADD_WEB, ADD_DB]).trace)
  {
    Ports();
    KeysDiffer();
    TwoServices(ADD_WEB, HTTP, ADD_DB, HTTP);
  }

  /** Updating a service that has a port and an endpoint panics as written and goes through when repaired. */
  lemma WrittenUpdatePanics()
    ensures FreshOps([ADD_WEB, ADD_WEB])
    ensures Run(Written, [ADD_WEB, ADD_WEB]).crashed
    ensures !Run(Repaired, [ADD_WEB, ADD_WEB]).crashed
  {
    Ports();
    UpdateTwice(ADD_WEB, HTTP);
  }

  lemma OneMixed(x: Op, p: Port, q: Port)
    requires x.UpdateOp? && Fresh(x) && Enumerates(x.order, x.svc.ports)
    requires x.svc.ports == {p, q} && p.targetPort != q.targetPort && |x.svc.endpoints| == 1
    ensures FreshOps([x]) && !Run(Repaired, [x]).crashed && !Safe(Run(Repaired, [x]).trace)
  {
    OneUpdate(Repaired, x);
    MixedAccepted(x, p, q);
    NotUniform(x.svc, p, q);
    UnsafeRun(x);
  }

  lemma UnsafeRun(x: Op)
    requires x.UpdateOp? && FreshOps([x]) && RunFits(Repaired, [x]) && DisjointRun([x]) && Updates([x]) == 1
    requires AllAccepted(Repaired, [x]) && !Uniform(x.svc)
    ensures !Run(Repaired, [x]).crashed && !Safe(Run(Repaired, [x]).trace)
  {
    RunGoesThrough(Repaired, [x]);
    RepairedSafeIff([x]);
    assert x in [x];
  }

  lemma NotUniform(x: Service, p: Port, q: Port)
    requires p in x.ports && q in x.ports && p.targetPort != q.targetPort && x.endpoints != []
    ensures !Uniform(x)
  {
  }

  lemma MixedAccepted(x: Op, p: Port, q: Port)
    requires x.UpdateOp? && x.svc.ports == {p, q} && |x.svc.endpoints| == 1
    ensures AllAccepted(Repaired, [x])
  {
    MixedFits(x.svc, p, q);
    OneAccepted(Repaired, x);
  }

  lemma MixedFits(x: Service, p: Port, q: Port)
    requires x.ports == {p, q} && |x.endpoints| == 1
    ensures var abs := map[x.Key() := x]; |AllFrontends(abs)| <= CAPACITY && |AllSlots(abs)| <= CAPACITY
  {
    FewFit(map[x.Key() := x], {FrontendOf(x, p), FrontendOf(x, q)}, {Slot(x.Key(), 0)});
  }

  /** Two target ports on one service: unsafe even repaired, because a slot has no port in its key. */
  lemma TwoTargetsUnsafe()
    ensures FreshOps([ADD_MIXED])
    ensures !Run(Repaired, [ADD_MIXED]).crashed && !Safe(Run(Repaired, [ADD_MIXED]).trace)
  {
    Ports();
    OneMixed(ADD_MIXED, HTTP, ALT);
  }
}
