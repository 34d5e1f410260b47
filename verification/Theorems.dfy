/**
  The main results about control plane and data plane together.

  The abstract table maps each service key to the service its last update gave it. Both codes
  are compared with it: between operations (what a connect does equals a lookup in the abstract
  table) and during operations (a connect is never sent to a service other than the one it
  looked up). Neither holds of every run; each theorem says exactly of which it does.
 */
module Theorems {
  import opened Words
  import opened Services
  import opened Tables
  import opened DataPlane
  import opened Writes
  import opened Machine
  import opened Safety
  import opened Ids
  import opened Live
  import opened Runs

  // ---------------------------------------------------------------------------
  // Lookup in the abstract table.

  ghost predicate Serves(abs: map<string, Service>, key: string, p: Port, f: Frontend) {
    key in abs && p in abs[key].ports && FrontendOf(abs[key], p) == f
  }

  ghost function Offer(svc: Service, p: Port, draw: U32): Option<Backend> {
    if svc.endpoints == [] then None
    else Some(Backend(svc.endpoints[Remainder(draw, |svc.endpoints|)], ByteSwap(p.targetPort)))
  }

  ghost function AbsChoose(abs: map<string, Service>, dst: Dest, draw: U32): Option<Backend> {
    if dst.kind != SOCK_STREAM && dst.kind != SOCK_DGRAM then None
    else if exists key, p :: Serves(abs, key, p, KeyOf(dst)) then
      var key, p :| Serves(abs, key, p, KeyOf(dst));
      Offer(abs[key], p, draw)
    else None
  }

  /** With disjoint, well-formed services there is at most one offer. */
  lemma ServesOnce(abs: map<string, Service>, key: string, p: Port, key': string, p': Port, f: Frontend)
    requires Keyed(abs) && Disjoint(abs) && Serves(abs, key, p, f) && Serves(abs, key', p', f)
    ensures key == key' && p == p'
  {
    assert f in Frontends(abs[key]) && f in Frontends(abs[key']);
    assert WellFormed(abs[key]);
  }

  lemma AbsChooseAt(abs: map<string, Service>, key: string, p: Port, dst: Dest, draw: U32)
    requires Keyed(abs) && Disjoint(abs) && Serves(abs, key, p, KeyOf(dst))
    requires dst.kind == SOCK_STREAM || dst.kind == SOCK_DGRAM
    ensures AbsChoose(abs, dst, draw) == Offer(abs[key], p, draw)
  {
    forall key', p' | Serves(abs, key', p', KeyOf(dst)) ensures key' == key && p' == p {
      ServesOnce(abs, key, p, key', p', KeyOf(dst));
    }
  }

  ghost predicate Agrees(t: Tables, abs: map<string, Service>) {
    forall dst, draw :: Choose(t, t, dst, draw) == AbsChoose(abs, dst, draw)
  }

  // ---------------------------------------------------------------------------
  // Between operations.

  ghost predicate CoherentLive(live: map<string, Service>) {
    forall k, l :: k in live && l in live && live[k].id == live[l].id ==> Agree(live[k], live[l])
  }

  lemma LiveSlotValue(live: map<string, Service>, t: Tables, key: string, p: Port, slot: U16)
    requires LiveInv(live, t) && CoherentLive(live) && key in live && p in live[key].ports
    requires 1 <= slot <= |live[key].endpoints|
    ensures BackendKey(live[key].id, slot) in t.backends
    ensures t.backends[BackendKey(live[key].id, slot)] == SlotValue(live[key], p, slot)
  {
    var a, k := live[key], BackendKey(live[key].id, slot);
    assert Complete(t, a) && SlotsOf(a, k);
    assert SlotLive(live, k, t.backends[k]);
    var l :| l in live && OwnSlot(live[l], k, t.backends[k]);
    AgreedValue(a, live[l], p, k, t.backends[k]);
  }

  lemma ChooseStored(t: Tables, a: Service, p: Port, dst: Dest, draw: U32)
    requires dst.kind == SOCK_STREAM || dst.kind == SOCK_DGRAM
    requires |a.endpoints| < 0x1_0000
    requires KeyOf(dst) in t.services && t.services[KeyOf(dst)] == Entry(a.id, |a.endpoints|)
    requires forall slot: U16 :: 1 <= slot <= |a.endpoints| ==>
               BackendKey(a.id, slot) in t.backends && t.backends[BackendKey(a.id, slot)] == SlotValue(a, p, slot)
    ensures Choose(t, t, dst, draw) == Offer(a, p, draw)
  {
    if a.endpoints != [] {
      PickSlotInRange(draw, |a.endpoints|);
      assert BackendKey(a.id, PickSlot(draw, |a.endpoints|)) in t.backends;
    }
  }

  lemma LiveChoose(live: map<string, Service>, t: Tables, key: string, p: Port, dst: Dest, draw: U32)
    requires LiveInv(live, t) && CoherentLive(live) && Keyed(live) && Serves(live, key, p, KeyOf(dst))
    requires dst.kind == SOCK_STREAM || dst.kind == SOCK_DGRAM
    ensures Choose(t, t, dst, draw) == Offer(live[key], p, draw)
  {
    assert Complete(t, live[key]) && WellFormed(live[key]);
    LiveSlotValues(live, t, key, p);
    ChooseStored(t, live[key], p, dst, draw);
  }

  lemma LiveSlotValues(live: map<string, Service>, t: Tables, key: string, p: Port)
    requires LiveInv(live, t) && CoherentLive(live) && key in live && p in live[key].ports
    ensures var a := live[key];
            forall slot: U16 :: 1 <= slot <= |a.endpoints| ==>
              BackendKey(a.id, slot) in t.backends && t.backends[BackendKey(a.id, slot)] == SlotValue(a, p, slot)
  {
    var a := live[key];
    forall slot: U16 | 1 <= slot <= |a.endpoints|
      ensures BackendKey(a.id, slot) in t.backends && t.backends[BackendKey(a.id, slot)] == SlotValue(a, p, slot)
    {
      LiveSlotValue(live, t, key, p, slot);
    }
  }

  lemma CoherentAgrees(live: map<string, Service>, t: Tables)
    requires LiveInv(live, t) && Keyed(live) && Disjoint(live) && CoherentLive(live)
    ensures Agrees(t, live)
  {
    forall dst, draw ensures Choose(t, t, dst, draw) == AbsChoose(live, dst, draw) {
      var f := KeyOf(dst);
      if dst.kind == SOCK_STREAM || dst.kind == SOCK_DGRAM {
        if f in t.services {
          assert EntryLive(live, f);
          var key :| key in live && f in Frontends(live[key]);
          var p :| p in live[key].ports && FrontendOf(live[key], p) == f;
          assert Serves(live, key, p, f);
          LiveChoose(live, t, key, p, dst, draw);
          AbsChooseAt(live, key, p, dst, draw);
        } else {
          forall key, p ensures !Serves(live, key, p, f) {
            assert key in live ==> Complete(t, live[key]);
          }
        }
      }
    }
  }

  lemma AgreesRead(live: map<string, Service>, t: Tables, key: string, p: Port, i: nat)
    requires LiveInv(live, t) && Keyed(live) && Disjoint(live) && Agrees(t, live)
    requires key in live && p in live[key].ports && i < |live[key].endpoints|
    ensures BackendKey(live[key].id, i + 1) in t.backends
    ensures t.backends[BackendKey(live[key].id, i + 1)] == Backend(live[key].endpoints[i], ByteSwap(p.targetPort))
  {
    var dst := DestFor(FrontendOf(live[key], p));
    assert Complete(t, live[key]) && WellFormed(live[key]);
    AbsChooseAt(live, key, p, dst, i);
    assert Choose(t, t, dst, i) == AbsChoose(live, dst, i);
    OfferedIsStored(t, live[key], p, i);
  }

  lemma OfferedIsStored(t: Tables, a: Service, p: Port, i: nat)
    requires Complete(t, a) && WellFormed(a) && p in a.ports && i < |a.endpoints|
    requires Choose(t, t, DestFor(FrontendOf(a, p)), i) == Offer(a, p, i)
    ensures BackendKey(a.id, i + 1) in t.backends
    ensures t.backends[BackendKey(a.id, i + 1)] == Backend(a.endpoints[i], ByteSwap(p.targetPort))
  {
    CompleteSlot(t, a, i);
    CompleteChoose(t, t, a, p, i);
    OfferSelects(a, p, i);
  }

  lemma OfferSelects(a: Service, p: Port, i: nat)
    requires i < |a.endpoints| < 0x1_0000
    ensures Offer(a, p, i) == Some(Backend(a.endpoints[i], ByteSwap(p.targetPort)))
  {
    DrawSelects(i, |a.endpoints|);
  }

  lemma AgreesCoherent(live: map<string, Service>, t: Tables)
    requires LiveInv(live, t) && Keyed(live) && Disjoint(live) && Agrees(t, live)
    ensures CoherentLive(live)
  {
    forall k, l | k in live && l in live && live[k].id == live[l].id ensures Agree(live[k], live[l]) {
      AgreesAgree(live, t, k, l);
    }
  }

  lemma AgreesAgree(live: map<string, Service>, t: Tables, k: string, l: string)
    requires LiveInv(live, t) && Keyed(live) && Disjoint(live) && Agrees(t, live)
    requires k in live && l in live && live[k].id == live[l].id
    ensures Agree(live[k], live[l])
  {
    var a, b := live[k], live[l];
    forall p, q, i | p in a.ports && q in b.ports && 0 <= i < |a.endpoints| && i < |b.endpoints|
      ensures SameSlot(a, b, p, q, i)
    {
      AgreesRead(live, t, k, p, i);
      AgreesRead(live, t, l, q, i);
      ByteSwapInjective(p.targetPort, q.targetPort);
    }
  }

  lemma SameAbsChoose(live: map<string, Service>, abs: map<string, Service>, dst: Dest, draw: U32)
    requires Represents(live, abs) && Keyed(live) && Keyed(abs) && Disjoint(live) && Disjoint(abs)
    ensures AbsChoose(live, dst, draw) == AbsChoose(abs, dst, draw)
  {
    var f := KeyOf(dst);
    forall key, p ensures Serves(live, key, p, f) <==> Serves(abs, key, p, f) {
      if key in live { assert live[key] == abs[key].(id := live[key].id); }
    }
    if (dst.kind == SOCK_STREAM || dst.kind == SOCK_DGRAM) && exists key, p :: Serves(live, key, p, f) {
      var key, p :| Serves(live, key, p, f);
      AbsChooseAt(live, key, p, dst, draw);
      AbsChooseAt(abs, key, p, dst, draw);
      assert live[key] == abs[key].(id := live[key].id);
    }
  }

  lemma RepresentsKeyed(live: map<string, Service>, abs: map<string, Service>)
    requires Represents(live, abs) && Keyed(live)
    ensures Keyed(abs)
  {
    forall key | key in abs ensures abs[key].Key() == key && WellFormed(abs[key]) {
      assert live[key] == abs[key].(id := live[key].id);
      assert forall p :: FrontendOf(live[key], p) == FrontendOf(abs[key], p);
      assert WellFormed(live[key]);
    }
  }

  /**
    For every run of either code that goes through: afterwards every connect, on every
    destination and every draw, does what a lookup in the abstract table says, if and only if
    live services that were given the same id store the same values in every slot they share.
   */
  lemma RunAgreesIff(code: Code, ops: seq<Op>)
    requires FreshOps(ops) && RunFits(code, ops) && DisjointRun(ops) && AllAccepted(code, ops)
    requires code.Repaired? ==> Updates(ops) < ID_LIMIT
    ensures Agrees(Run(code, ops).Now(), AbsRun(ops)) <==> CoherentLive(Run(code, ops).services)
  {
    var s, abs := Run(code, ops), AbsRun(ops);
    RunGoesThrough(code, ops);
    RunRepresents(code, ops);
    QuietKeyed(code, s);
    RepresentsKeyed(s.services, abs);
    forall dst, draw ensures AbsChoose(s.services, dst, draw) == AbsChoose(abs, dst, draw) {
      SameAbsChoose(s.services, abs, dst, draw);
    }
    if CoherentLive(s.services) { CoherentAgrees(s.services, s.Now()); }
    if Agrees(s.Now(), abs) {
      assert Agrees(s.Now(), s.services);
      AgreesCoherent(s.services, s.Now());
    }
  }

  /** All ports of the service have one target port, or there is no endpoint to reach. */
  ghost predicate Uniform(svc: Service) { SharedTarget(svc) || svc.endpoints == [] }

  lemma AgreeWithItself(svc: Service)
    ensures Agree(svc, svc) <==> Uniform(svc)
  {
    if Agree(svc, svc) && svc.endpoints != [] {
      forall p, q | p in svc.ports && q in svc.ports ensures p.targetPort == q.targetPort {
        assert SameSlot(svc, svc, p, q, 0);
      }
    }
  }

  lemma AgreeIgnoresId(a: Service, b: Service, a': Service, b': Service)
    requires a == a'.(id := a.id) && b == b'.(id := b.id)
    ensures Agree(a, b) <==> Agree(a', b')
  {
    forall p, q, i | 0 <= i < |a.endpoints| && i < |b.endpoints|
      ensures SameSlot(a, b, p, q, i) <==> SameSlot(a', b', p, q, i)
    {
    }
  }

  /** Repaired: connects agree with the abstract table exactly when each live service has one target port. */
  lemma RepairedAgreesIff(ops: seq<Op>)
    requires FreshOps(ops) && RunFits(Repaired, ops) && DisjointRun(ops) && AllAccepted(Repaired, ops)
    requires Updates(ops) < ID_LIMIT
    ensures Agrees(Run(Repaired, ops).Now(), AbsRun(ops)) <==>
            forall key :: key in AbsRun(ops) ==> Uniform(AbsRun(ops)[key])
  {
    var s, abs := Run(Repaired, ops), AbsRun(ops);
    RunAgreesIff(Repaired, ops);
    RunGoesThrough(Repaired, ops);
    RunRepresents(Repaired, ops);
    IdsOfRun(Repaired, ops);
    QuietKeyed(Repaired, s);
    var live := s.services;
    forall key | key in abs ensures Uniform(abs[key]) <==> Agree(live[key], live[key]) {
      assert live[key] == abs[key].(id := live[key].id);
      AgreeWithItself(abs[key]);
      AgreeIgnoresId(live[key], live[key], abs[key], abs[key]);
    }
  }

  /** As written: exactly when all live services agree slot by slot, because all of them have id 1. */
  lemma WrittenAgreesIff(ops: seq<Op>)
    requires FreshOps(ops) && RunFits(Written, ops) && DisjointRun(ops) && AllAccepted(Written, ops)
    ensures Agrees(Run(Written, ops).Now(), AbsRun(ops)) <==>
            forall k, l :: k in AbsRun(ops) && l in AbsRun(ops) ==> Agree(AbsRun(ops)[k], AbsRun(ops)[l])
  {
    var s, abs := Run(Written, ops), AbsRun(ops);
    RunAgreesIff(Written, ops);
    RunGoesThrough(Written, ops);
    RunRepresents(Written, ops);
    WrittenRunIds(ops);
    QuietKeyed(Written, s);
    var live := s.services;
    forall k, l | k in abs && l in abs
      ensures live[k].id == live[l].id && (Agree(abs[k], abs[l]) <==> Agree(live[k], live[l]))
    {
      assert live[k] in s.pool && live[l] in s.pool;
      AgreeIgnoresId(live[k], live[l], abs[k], abs[l]);
    }
  }

  // ---------------------------------------------------------------------------
  // During operations.

  /** The service `a` of the pool is what some update of the run asked for, with an id. */
  ghost predicate AskedFor(ops: seq<Op>, a: Service) {
    exists op :: op in ops && op.UpdateOp? && a == op.svc.(id := a.id)
  }

  /** Some point of the run holds the service completely. */
  ghost predicate Carried(s: State, a: Service) {
    exists i :: 0 <= i < |s.trace| && Complete(s.trace[i], a)
  }

  lemma AskedForGrows(ops: seq<Op>, a: Service)
    requires ops != [] && AskedFor(ops[..|ops| - 1], a)
    ensures AskedFor(ops, a)
  {
    var op :| op in ops[..|ops| - 1] && op.UpdateOp? && a == op.svc.(id := a.id);
    assert op in ops;
  }

  lemma CarriedGrows(s: State, s': State, a: Service)
    requires Carried(s, a) && s.trace <= s'.trace
    ensures Carried(s', a)
  {
    var i :| 0 <= i < |s.trace| && Complete(s.trace[i], a);
    assert s'.trace[i] == s.trace[i];
  }

  lemma StepGrows(code: Code, s: State, op: Op)
    requires Fitting(s) && Fresh(op)
    ensures s.pool <= Step(code, s, op).pool && s.trace <= Step(code, s, op).trace
  {
    match op
    case DeleteOp(key, gone) => DeleteGrows(code, s, key, gone);
    case UpdateOp(svc, gone, order) =>
      if svc.Key() !in s.services {
        AppendGrows(code, s, svc, order);
      } else {
        var key := s.services[svc.Key()].Key();
        DeleteGrows(code, s, key, gone);
        AppendGrows(code, Delete(code, s, key, gone), svc, order);
      }
  }

  lemma DeleteGrows(code: Code, s: State, key: string, gone: seq<Port>)
    requires Fitting(s)
    ensures s.pool == Delete(code, s, key, gone).pool && s.trace <= Delete(code, s, key, gone).trace
  {
    if key in s.services { PerformEnds(s.trace, DeleteWrites(code, s.services[key], gone)); }
  }

  lemma AppendGrows(code: Code, s: State, svc: Service, order: seq<Port>)
    requires |svc.endpoints| < 0x1_0000
    ensures Append(code, s, svc, order).pool == s.pool + {Assigned(s.used, svc)}
    ensures s.trace <= Append(code, s, svc, order).trace
  {
    PerformEnds(s.trace, AppendWrites(Assigned(s.used, svc), order));
  }

  lemma AppendCarries(code: Code, s: State, svc: Service, order: seq<Port>)
    requires |svc.endpoints| < 0x1_0000 && Enumerates(order, svc.ports)
    requires !Append(code, s, svc, order).crashed
    ensures Carried(Append(code, s, svc, order), Assigned(s.used, svc))
  {
    var a, e := Assigned(s.used, svc), Append(code, s, svc, order);
    AssignedKeeps(s.used, svc);
    PerformEnds(s.trace, AppendWrites(a, order));
    AppendEffect(s.Now(), a, order);
    AppendCompletes(s.Now(), a, order);
    assert Complete(e.trace[|e.trace| - 1], a);
  }

  /** The state in which an update starts to append: after its delete, if there is something to delete. */
  function BeforeAppend(code: Code, s: State, svc: Service, gone: seq<Port>): State
    requires Fitting(s)
  {
    if svc.Key() in s.services then Delete(code, s, s.services[svc.Key()].Key(), gone) else s
  }

  lemma UpdateInTwo(code: Code, s: State, svc: Service, gone: seq<Port>, order: seq<Port>)
    requires Fitting(s) && |svc.endpoints| < 0x1_0000 && !s.crashed
    ensures var d := BeforeAppend(code, s, svc, gone);
            && d.pool == s.pool && d.used == s.used && s.trace <= d.trace
            && Update(code, s, svc, gone, order) == if d.crashed then d else Append(code, d, svc, order)
  {
    if svc.Key() in s.services { DeleteGrows(code, s, s.services[svc.Key()].Key(), gone); }
  }

  /** Whatever a step that goes through adds to the pool, it also carries. */
  lemma StepCarries(code: Code, s: State, op: Op, a: Service)
    requires Fitting(s) && Fresh(op) && OrdersFit(s, op) && !s.crashed && !Step(code, s, op).crashed
    requires a in Step(code, s, op).pool && a !in s.pool
    ensures Carried(Step(code, s, op), a)
  {
    match op
    case DeleteOp(key, gone) => DeleteGrows(code, s, key, gone);
    case UpdateOp(svc, gone, order) =>
      UpdateInTwo(code, s, svc, gone, order);
      AppendCarries(code, BeforeAppend(code, s, svc, gone), svc, order);
  }

  lemma StepAsks(code: Code, s: State, op: Op, a: Service)
    requires Fitting(s) && Fresh(op) && !s.crashed && a in Step(code, s, op).pool && a !in s.pool
    ensures op.UpdateOp? && a == op.svc.(id := a.id)
  {
    match op
    case DeleteOp(key, gone) => DeleteGrows(code, s, key, gone);
    case UpdateOp(svc, gone, order) =>
      UpdateInTwo(code, s, svc, gone, order);
      AssignedKeeps(s.used, svc);
  }

  lemma {:induction false} PoolIsAskedFor(code: Code, ops: seq<Op>, a: Service)
    requires FreshOps(ops) && a in Run(code, ops).pool
    ensures AskedFor(ops, a)
  {
    if ops != [] {
      FreshInit(ops);
      var init, op := ops[..|ops| - 1], ops[|ops| - 1];
      var s := Run(code, init);
      if a in s.pool {
        PoolIsAskedFor(code, init, a);
        AskedForGrows(ops, a);
      } else {
        StepAsks(code, s, op, a);
        assert op in ops;
      }
    }
  }

  /** Every service ever appended in a run that goes through was completely in the tables at some point. */
  lemma {:induction false} PoolIsCarried(code: Code, ops: seq<Op>, a: Service)
    requires FreshOps(ops) && RunFits(code, ops) && !Run(code, ops).crashed && a in Run(code, ops).pool
    ensures Carried(Run(code, ops), a)
  {
    if ops != [] {
      FreshInit(ops);
      var init, last := ops[..|ops| - 1], ops[|ops| - 1];
      var s := Run(code, init);
      if a in s.pool {
        PoolIsCarried(code, init, a);
        StepGrows(code, s, last);
        CarriedGrows(s, Run(code, ops), a);
      } else {
        StepCarries(code, s, last, a);
      }
    }
  }

  /** The service `svc` was appended, with some id. */
  ghost predicate Pooled(s: State, svc: Service) {
    exists a :: a in s.pool && a == svc.(id := a.id)
  }

  /** Every update of a run that goes through was appended. */
  lemma {:induction false} UpdatesArePooled(code: Code, ops: seq<Op>, op: Op)
    requires FreshOps(ops) && !Run(code, ops).crashed && op in ops && op.UpdateOp?
    ensures Pooled(Run(code, ops), op.svc)
  {
    FreshInit(ops);
    var init, last := ops[..|ops| - 1], ops[|ops| - 1];
    var s := Run(code, init);
    if op == last {
      UpdateInTwo(code, s, op.svc, op.gone, op.order);
      AssignedKeeps(s.used, op.svc);
      assert Assigned(s.used, op.svc) in Run(code, ops).pool;
    } else {
      assert op in init;
      UpdatesArePooled(code, init, op);
      StepGrows(code, s, last);
    }
  }

  /** Two services that were each complete at some point of a safe run, under one id, agree. */
  lemma SafeCarriedAgree(s: State, a: Service, b: Service)
    requires HistoryInv(s) && Safe(s.trace) && a in s.pool && b in s.pool && a.id == b.id
    requires Carried(s, a) && Carried(s, b)
    ensures Agree(a, b)
  {
    var i :| 0 <= i < |s.trace| && Complete(s.trace[i], a);
    var j :| 0 <= j < |s.trace| && Complete(s.trace[j], b);
    assert SafePair(s.trace[i], s.trace[i]) && SafePair(s.trace[j], s.trace[j]);
    if i <= j {
      SafeMakesAgree(s.trace[i], s.trace[j], a, b);
    } else {
      SafeMakesAgree(s.trace[j], s.trace[i], b, a);
      AgreeSymmetric(b, a);
    }
  }

  /** Either code: a run that goes through is safe at any two points exactly when services of one id agree. */
  lemma RunSafeIff(code: Code, ops: seq<Op>)
    requires FreshOps(ops) && RunFits(code, ops) && !Run(code, ops).crashed
    ensures Safe(Run(code, ops).trace) <==> Coherent(Run(code, ops).pool)
  {
    var s := Run(code, ops);
    if Coherent(s.pool) { CoherentSafe(code, ops); }
    if Safe(s.trace) {
      RunHistory(code, ops);
      forall a, b | a in s.pool && b in s.pool && a.id == b.id ensures Agree(a, b) {
        PoolIsCarried(code, ops, a);
        PoolIsCarried(code, ops, b);
        SafeCarriedAgree(s, a, b);
      }
    }
  }

  ghost predicate AllUniform(ops: seq<Op>) {
    forall op :: op in ops && op.UpdateOp? ==> Uniform(op.svc)
  }

  /** Any two services the run asked for store the same values in the slots they share. */
  ghost predicate AllAgree(ops: seq<Op>) {
    forall x, y :: x in ops && y in ops && x.UpdateOp? && y.UpdateOp? ==> Agree(x.svc, y.svc)
  }

  lemma UniformPool(ops: seq<Op>)
    requires FreshOps(ops) && Updates(ops) < ID_LIMIT && AllUniform(ops)
    ensures Coherent(Run(Repaired, ops).pool)
  {
    var s := Run(Repaired, ops);
    IdsOfRun(Repaired, ops);
    forall a, b | a in s.pool && b in s.pool && a.id == b.id ensures Agree(a, b) {
      PoolIsAskedFor(Repaired, ops, a);
      AgreeWithItself(a);
    }
  }

  lemma PoolUniform(ops: seq<Op>)
    requires FreshOps(ops) && !Run(Repaired, ops).crashed && Coherent(Run(Repaired, ops).pool)
    ensures AllUniform(ops)
  {
    var s := Run(Repaired, ops);
    forall op | op in ops && op.UpdateOp? ensures Uniform(op.svc) {
      UpdatesArePooled(Repaired, ops, op);
      var a :| a in s.pool && a == op.svc.(id := a.id);
      AgreeWithItself(a);
    }
  }

  /** Repaired and with one target port per service: safe in every run, even one cut short by a full map. */
  lemma RepairedSafe(ops: seq<Op>)
    requires FreshOps(ops) && RunFits(Repaired, ops) && Updates(ops) < ID_LIMIT && AllUniform(ops)
    ensures Safe(Run(Repaired, ops).trace)
  {
    UniformPool(ops);
    CoherentSafe(Repaired, ops);
  }

  /** Repaired: safe during the run exactly when every service of it has one target port. */
  lemma RepairedSafeIff(ops: seq<Op>)
    requires FreshOps(ops) && RunFits(Repaired, ops) && Updates(ops) < ID_LIMIT
    requires !Run(Repaired, ops).crashed
    ensures Safe(Run(Repaired, ops).trace) <==> AllUniform(ops)
  {
    RunSafeIff(Repaired, ops);
    if AllUniform(ops) { UniformPool(ops); }
    if Coherent(Run(Repaired, ops).pool) { PoolUniform(ops); }
  }

  lemma AgreeingPool(ops: seq<Op>)
    requires FreshOps(ops) && AllAgree(ops)
    ensures Coherent(Run(Written, ops).pool)
  {
    var s := Run(Written, ops);
    forall a, b | a in s.pool && b in s.pool && a.id == b.id ensures Agree(a, b) {
      PoolIsAskedFor(Written, ops, a);
      PoolIsAskedFor(Written, ops, b);
      var x :| x in ops && x.UpdateOp? && a == x.svc.(id := a.id);
      var y :| y in ops && y.UpdateOp? && b == y.svc.(id := b.id);
      AgreeIgnoresId(a, b, x.svc, y.svc);
    }
  }

  lemma PoolAgrees(ops: seq<Op>)
    requires FreshOps(ops) && !Run(Written, ops).crashed && Coherent(Run(Written, ops).pool)
    ensures AllAgree(ops)
  {
    var s := Run(Written, ops);
    WrittenRunIds(ops);
    forall x, y | x in ops && y in ops && x.UpdateOp? && y.UpdateOp? ensures Agree(x.svc, y.svc) {
      UpdatesArePooled(Written, ops, x);
      UpdatesArePooled(Written, ops, y);
      var a :| a in s.pool && a == x.svc.(id := a.id);
      var b :| b in s.pool && b == y.svc.(id := b.id);
      AgreeIgnoresId(a, b, x.svc, y.svc);
    }
  }

  lemma WrittenSafe(ops: seq<Op>)
    requires FreshOps(ops) && RunFits(Written, ops) && AllAgree(ops)
    ensures Safe(Run(Written, ops).trace)
  {
    AgreeingPool(ops);
    CoherentSafe(Written, ops);
  }

  /** As written: safe during the run exactly when all services of the run agree slot by slot. */
  lemma WrittenSafeIff(ops: seq<Op>)
    requires FreshOps(ops) && RunFits(Written, ops) && !Run(Written, ops).crashed
    ensures Safe(Run(Written, ops).trace) <==> AllAgree(ops)
  {
    RunSafeIff(Written, ops);
    if AllAgree(ops) { AgreeingPool(ops); }
    if Coherent(Run(Written, ops).pool) { PoolAgrees(ops); }
  }
}
