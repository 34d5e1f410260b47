/**
  Safety of the data plane while the control plane is writing: for every run and any two
  points of it, a connect whose first lookup sees the earlier point and whose second sees the
  later one either leaves the destination alone or picks the endpoint its draw selects from
  the very service its first lookup read.
 */
module Safety {
  import opened Words
  import opened Services
  import opened Tables
  import opened DataPlane
  import opened Writes
  import opened Machine

  // ---------------------------------------------------------------------------
  // What is meant by safe.

  /** `b` is what service `a` offers at frontend `f` for `draw`. */
  ghost predicate Offers(a: Service, f: Frontend, draw: U32, b: Backend) {
    && a.endpoints != []
    && exists p :: p in a.ports && FrontendOf(a, p) == f &&
                   b == Backend(a.endpoints[Remainder(draw, |a.endpoints|)], ByteSwap(p.targetPort))
  }

  ghost predicate SafeRead(first: Tables, second: Tables, dst: Dest, draw: U32) {
    match Choose(first, second, dst, draw)
    case None => true
    case Some(b) => KeyOf(dst) in first.owner && Offers(first.owner[KeyOf(dst)], KeyOf(dst), draw, b)
  }

  ghost predicate SafePair(first: Tables, second: Tables) {
    forall dst, draw :: SafeRead(first, second, dst, draw)
  }

  ghost predicate Safe(trace: Trace) {
    forall i, j :: 0 <= i <= j < |trace| ==> SafePair(trace[i], trace[j])
  }

  // ---------------------------------------------------------------------------
  // When services that share an id do not disturb each other.

  ghost predicate SameSlot(a: Service, b: Service, p: Port, q: Port, i: int)
    requires 0 <= i < |a.endpoints| && i < |b.endpoints|
  {
    a.endpoints[i] == b.endpoints[i] && p.targetPort == q.targetPort
  }

  /** The two services store the same values in every slot both have, whichever port stored them. */
  ghost predicate Agree(a: Service, b: Service) {
    forall p, q, i :: p in a.ports && q in b.ports && 0 <= i < |a.endpoints| && i < |b.endpoints| ==>
                        SameSlot(a, b, p, q, i)
  }

  /** What one service stored is what another that agrees with it would have stored. */
  lemma AgreedValue(a: Service, b: Service, p: Port, k: U32, v: Backend)
    requires Agree(a, b) && OwnSlot(b, k, v) && p in a.ports && 1 <= SlotOf(k) <= |a.endpoints|
    ensures v == SlotValue(a, p, SlotOf(k))
  {
    var q :| q in b.ports && v == SlotValue(b, q, SlotOf(k));
    assert SameSlot(a, b, p, q, SlotOf(k) - 1);
  }

  ghost predicate Coherent(pool: set<Service>) {
    forall a, b :: a in pool && b in pool && a.id == b.id ==> Agree(a, b)
  }

  // ---------------------------------------------------------------------------
  // Every intermediate state of the tables holds only what services of the pool put there.

  ghost predicate EntryFrom(pool: set<Service>, t: Tables, f: Frontend)
    requires f in t.services
  {
    f in t.owner && t.owner[f] in pool && t.services[f] == EntryOf(t.owner[f]) && f in Frontends(t.owner[f])
  }

  ghost predicate SlotFrom(pool: set<Service>, k: U32, b: Backend) {
    exists svc :: svc in pool && OwnSlot(svc, k, b)
  }

  ghost predicate CutInv(t: Tables, pool: set<Service>) {
    && (forall f :: f in t.services ==> EntryFrom(pool, t, f))
    && (forall k :: k in t.backends ==> SlotFrom(pool, k, t.backends[k]))
  }

  ghost predicate TraceInv(trace: Trace, pool: set<Service>) {
    forall i :: 0 <= i < |trace| ==> CutInv(trace[i], pool)
  }

  ghost predicate GoodWrite(pool: set<Service>, w: Write) {
    IsDrop(w) || exists svc :: svc in pool && OwnWrite(svc, w)
  }

  lemma GoodWriteKeeps(t: Tables, pool: set<Service>, w: Write)
    requires CutInv(t, pool) && GoodWrite(pool, w)
    ensures CutInv(Apply(t, w), pool)
  {
    var u := Apply(t, w);
    forall f | f in u.services ensures EntryFrom(pool, u, f) {
      if f in t.services { assert EntryFrom(pool, t, f); }
    }
    forall k | k in u.backends ensures SlotFrom(pool, k, u.backends[k]) {
      if w.PutBackend? && k == w.key {
        var svc :| svc in pool && OwnWrite(svc, w);
        assert OwnSlot(svc, k, u.backends[k]);
      } else {
        assert SlotFrom(pool, k, t.backends[k]);
      }
    }
  }

  lemma {:induction false} PerformKeeps(trace: Trace, ws: seq<Write>, pool: set<Service>)
    requires TraceInv(trace, pool)
    requires forall w :: w in ws ==> GoodWrite(pool, w)
    ensures TraceInv(Perform(trace, ws).trace, pool)
  {
    if ws != [] {
      var init, w := ws[..|ws| - 1], ws[|ws| - 1];
      assert forall v :: v in init ==> v in ws;
      PerformKeeps(trace, init, pool);
      assert w in ws;
      GoodWriteKeeps(Last(Perform(trace, init).trace), pool, w);
    }
  }

  lemma CutInvGrows(t: Tables, pool: set<Service>, bigger: set<Service>)
    requires CutInv(t, pool) && pool <= bigger
    ensures CutInv(t, bigger)
  {
    forall f | f in t.services ensures EntryFrom(bigger, t, f) {
      assert EntryFrom(pool, t, f);
    }
    forall k | k in t.backends ensures SlotFrom(bigger, k, t.backends[k]) {
      assert SlotFrom(pool, k, t.backends[k]);
    }
  }

  lemma TraceInvGrows(trace: Trace, pool: set<Service>, bigger: set<Service>)
    requires TraceInv(trace, pool) && pool <= bigger
    ensures TraceInv(trace, bigger)
  {
    forall i | 0 <= i < |trace| ensures CutInv(trace[i], bigger) {
      CutInvGrows(trace[i], pool, bigger);
    }
  }

  ghost predicate PoolWellFormed(pool: set<Service>) {
    forall svc :: svc in pool ==> WellFormed(svc)
  }

  /** What every state of every run satisfies, crashed or not. */
  ghost predicate HistoryInv(s: State) {
    && TraceInv(s.trace, s.pool)
    && PoolWellFormed(s.pool)
    && (forall key :: key in s.services ==> s.services[key] in s.pool && s.services[key].Key() == key)
  }

  lemma AssignedKeeps(used: set<U16>, svc: Service)
    ensures var a := Assigned(used, svc);
            && a == svc.(id := a.id) && a.Key() == svc.Key()
            && (WellFormed(svc) ==> WellFormed(a)) && Frontends(a) == Frontends(svc)
            && (forall p :: FrontendOf(a, p) == FrontendOf(svc, p))
  {
  }

  lemma AppendHistory(code: Code, s: State, svc: Service, order: seq<Port>)
    requires HistoryInv(s) && WellFormed(svc) && Enumerates(order, svc.ports)
    ensures HistoryInv(Append(code, s, svc, order))
  {
    var a := Assigned(s.used, svc);
    AssignedKeeps(s.used, svc);
    var pool := s.pool + {a};
    TraceInvGrows(s.trace, s.pool, pool);
    forall w | w in AppendWrites(a, order) ensures GoodWrite(pool, w) {
      AppendWritesOwn(a, order, w);
    }
    PerformKeeps(s.trace, AppendWrites(a, order), pool);
  }

  lemma DeleteHistory(code: Code, s: State, key: string, order: seq<Port>)
    requires HistoryInv(s) && Fitting(s)
    ensures HistoryInv(Delete(code, s, key, order))
  {
    if key in s.services {
      var ws := DeleteWrites(code, s.services[key], order);
      forall w | w in ws ensures GoodWrite(s.pool, w) {
        DeleteWritesDrop(code, s.services[key], order, w);
      }
      PerformKeeps(s.trace, ws, s.pool);
    }
  }

  lemma StepHistory(code: Code, s: State, op: Op)
    requires HistoryInv(s) && Fitting(s) && Fresh(op) && OrdersFit(s, op)
    ensures HistoryInv(Step(code, s, op))
  {
    match op
    case DeleteOp(key, gone) => DeleteHistory(code, s, key, gone);
    case UpdateOp(svc, gone, order) =>
      if svc.Key() !in s.services {
        AppendHistory(code, s, svc, order);
      } else {
        DeleteHistory(code, s, svc.Key(), gone);
        var d := Delete(code, s, svc.Key(), gone);
        if !d.crashed { AppendHistory(code, d, svc, order); }
      }
  }

  lemma {:induction false} RunHistory(code: Code, ops: seq<Op>)
    requires FreshOps(ops) && RunFits(code, ops)
    ensures HistoryInv(Run(code, ops))
  {
    if ops != [] {
      FreshInit(ops);
      RunHistory(code, ops[..|ops| - 1]);
      var s := Run(code, ops[..|ops| - 1]);
      if !s.crashed { StepHistory(code, s, ops[|ops| - 1]); }
    }
  }

  // ---------------------------------------------------------------------------
  // Sufficiency.

  lemma CoherentSlot(t: Tables, pool: set<Service>, a: Service, p: Port, slot: U16)
    requires CutInv(t, pool) && Coherent(pool) && a in pool && p in a.ports
    requires 1 <= slot <= |a.endpoints| && BackendKey(a.id, slot) in t.backends
    ensures t.backends[BackendKey(a.id, slot)] == SlotValue(a, p, slot)
  {
    var k := BackendKey(a.id, slot);
    assert SlotFrom(pool, k, t.backends[k]);
    var b :| b in pool && OwnSlot(b, k, t.backends[k]);
    AgreedValue(a, b, p, k, t.backends[k]);
  }

  lemma CoherentChoice(t: Tables, pool: set<Service>, a: Service, p: Port, draw: U32)
    requires CutInv(t, pool) && Coherent(pool) && a in pool && WellFormed(a) && p in a.ports && a.endpoints != []
    requires BackendKey(a.id, PickSlot(draw, |a.endpoints|)) in t.backends
    ensures Offers(a, FrontendOf(a, p), draw, t.backends[BackendKey(a.id, PickSlot(draw, |a.endpoints|))])
  {
    PickSlotInRange(draw, |a.endpoints|);
    CoherentSlot(t, pool, a, p, PickSlot(draw, |a.endpoints|));
  }

  lemma EntryAt(t: Tables, pool: set<Service>, f: Frontend) returns (p: Port)
    requires CutInv(t, pool) && PoolWellFormed(pool) && f in t.services
    ensures f in t.owner && t.owner[f] in pool && WellFormed(t.owner[f])
    ensures p in t.owner[f].ports && FrontendOf(t.owner[f], p) == f
    ensures t.services[f] == Entry(t.owner[f].id, |t.owner[f].endpoints|)
  {
    assert EntryFrom(pool, t, f);
    p :| p in t.owner[f].ports && FrontendOf(t.owner[f], p) == f;
  }

  lemma CoherentRead(first: Tables, second: Tables, pool: set<Service>, dst: Dest, draw: U32)
    requires CutInv(first, pool) && CutInv(second, pool) && PoolWellFormed(pool) && Coherent(pool)
    ensures SafeRead(first, second, dst, draw)
  {
    var f := KeyOf(dst);
    if f in first.services && first.services[f].count > 0 {
      var p := EntryAt(first, pool, f);
      var a := first.owner[f];
      var k := BackendKey(a.id, PickSlot(draw, |a.endpoints|));
      if k in second.backends { CoherentChoice(second, pool, a, p, draw); }
      OfferedRead(first, second, dst, draw, a);
    }
  }

  lemma OfferedRead(first: Tables, second: Tables, dst: Dest, draw: U32, a: Service)
    requires 0 < |a.endpoints| < 0x1_0000
    requires KeyOf(dst) in first.services && first.services[KeyOf(dst)] == Entry(a.id, |a.endpoints|)
    requires KeyOf(dst) in first.owner && first.owner[KeyOf(dst)] == a
    requires var k := BackendKey(a.id, PickSlot(draw, |a.endpoints|));
             k in second.backends ==> Offers(a, KeyOf(dst), draw, second.backends[k])
    ensures SafeRead(first, second, dst, draw)
  {
  }

  /** Coherent services are safe in every run of either code, even one that ends in a crash. */
  lemma CoherentSafe(code: Code, ops: seq<Op>)
    requires FreshOps(ops) && RunFits(code, ops)
    requires Coherent(Run(code, ops).pool)
    ensures Safe(Run(code, ops).trace)
  {
    var s := Run(code, ops);
    RunHistory(code, ops);
    forall i, j, dst, draw | 0 <= i <= j < |s.trace| ensures SafeRead(s.trace[i], s.trace[j], dst, draw) {
      CoherentRead(s.trace[i], s.trace[j], s.pool, dst, draw);
    }
  }

  // ---------------------------------------------------------------------------
  // Necessity: a state that holds a service completely shows its readers every slot.

  ghost predicate SlotsOf(svc: Service, k: U32) {
    IdOf(k) == svc.id && 1 <= SlotOf(k) <= |svc.endpoints|
  }

  ghost predicate Complete(t: Tables, svc: Service) {
    && (forall p :: p in svc.ports ==>
          var f := FrontendOf(svc, p);
          f in t.services && t.services[f] == EntryOf(svc) && f in t.owner && t.owner[f] == svc)
    && (svc.ports != {} ==> forall k :: SlotsOf(svc, k) ==> k in t.backends)
  }

  /** Draw `i` selects endpoint `i`. */
  lemma DrawSelects(i: nat, n: U16)
    requires i < n
    ensures Remainder(i, n) == i && PickSlot(i, n) == i + 1
  {
  }

  lemma CompleteEntry(t: Tables, svc: Service, p: Port)
    requires Complete(t, svc) && p in svc.ports
    ensures FrontendOf(svc, p) in t.services && t.services[FrontendOf(svc, p)] == EntryOf(svc)
  {
  }

  lemma CompleteSlot(t: Tables, svc: Service, i: nat)
    requires Complete(t, svc) && WellFormed(svc) && svc.ports != {} && i < |svc.endpoints|
    ensures BackendKey(svc.id, i + 1) in t.backends
  {
    assert SlotsOf(svc, BackendKey(svc.id, i + 1));
  }

  lemma CompleteChoose(first: Tables, second: Tables, svc: Service, p: Port, i: nat)
    requires Complete(first, svc) && WellFormed(svc) && p in svc.ports && i < |svc.endpoints|
    requires BackendKey(svc.id, i + 1) in second.backends
    ensures Choose(first, second, DestFor(FrontendOf(svc, p)), i) == Some(second.backends[BackendKey(svc.id, i + 1)])
  {
    CompleteEntry(first, svc, p);
    ChooseDirect(first, second, FrontendOf(svc, p), svc.id, |svc.endpoints|, i);
  }

  lemma ChooseDirect(first: Tables, second: Tables, f: Frontend, id: U16, n: U16, i: nat)
    requires i < n && f in first.services && first.services[f] == Entry(id, n)
    requires BackendKey(id, i + 1) in second.backends
    ensures Choose(first, second, DestFor(f), i) == Some(second.backends[BackendKey(id, i + 1)])
  {
    DrawSelects(i, n);
  }

  /** A safe read that starts where the service is complete finds its own value wherever it ends. */
  lemma CompleteRead(first: Tables, second: Tables, svc: Service, p: Port, i: nat)
    requires Complete(first, svc) && WellFormed(svc) && p in svc.ports && i < |svc.endpoints|
    requires BackendKey(svc.id, i + 1) in second.backends
    requires SafeRead(first, second, DestFor(FrontendOf(svc, p)), i)
    ensures second.backends[BackendKey(svc.id, i + 1)] == Backend(svc.endpoints[i], ByteSwap(p.targetPort))
  {
    var f := FrontendOf(svc, p);
    CompleteChoose(first, second, svc, p, i);
    var b := second.backends[BackendKey(svc.id, i + 1)];
    assert Offers(svc, f, i, b);
    var q :| q in svc.ports && FrontendOf(svc, q) == f &&
             b == Backend(svc.endpoints[Remainder(i, |svc.endpoints|)], ByteSwap(q.targetPort));
    assert q == p;
    DrawSelects(i, |svc.endpoints|);
  }

  /** Two services of one id, each complete at some point: safe reads between the points force them to agree. */
  lemma SafeMakesAgree(first: Tables, second: Tables, a: Service, b: Service)
    requires Complete(first, a) && Complete(second, b) && WellFormed(a) && WellFormed(b) && a.id == b.id
    requires SafePair(first, second) && SafePair(second, second)
    ensures Agree(a, b)
  {
    forall p, q, i | p in a.ports && q in b.ports && 0 <= i < |a.endpoints| && i < |b.endpoints|
      ensures SameSlot(a, b, p, q, i)
    {
      assert SafeRead(first, second, DestFor(FrontendOf(a, p)), i);
      assert SafeRead(second, second, DestFor(FrontendOf(b, q)), i);
      CompleteSlot(second, b, i);
      CompleteRead(first, second, a, p, i);
      CompleteRead(second, second, b, q, i);
      ByteSwapInjective(p.targetPort, q.targetPort);
    }
  }

  lemma AgreeSymmetric(a: Service, b: Service)
    requires Agree(a, b)
    ensures Agree(b, a)
  {
    forall p, q, i | p in b.ports && q in a.ports && 0 <= i < |b.endpoints| && i < |a.endpoints|
      ensures SameSlot(b, a, p, q, i)
    {
      assert SameSlot(a, b, q, p, i);
    }
  }
}
