/**
  Between operations: the tables hold the entries and slots of the live services and nothing
  else. Proved for every uncrashed run of either code.
 */
module Live {
  import opened Words
  import opened Services
  import opened Tables
  import opened Writes
  import opened Machine
  import opened Safety

  /** No frontend belongs to two live services. */
  ghost predicate Disjoint(live: map<string, Service>) {
    forall k, l :: k in live && l in live && k != l ==> Frontends(live[k]) !! Frontends(live[l])
  }

  // ---------------------------------------------------------------------------
  // The abstract table: the last update or delete of each service key decides.

  function AbsStep(abs: map<string, Service>, op: Op): map<string, Service> {
    match op
    case UpdateOp(svc, _, _) => abs[svc.Key() := svc]
    case DeleteOp(key, _) => abs - {key}
  }

  function AbsRun(ops: seq<Op>): map<string, Service> {
    if ops == [] then map[] else AbsStep(AbsRun(ops[..|ops| - 1]), ops[|ops| - 1])
  }

  /** After every operation of the run the live services have disjoint frontends. */
  ghost predicate DisjointRun(ops: seq<Op>) {
    Disjoint(AbsRun(ops)) && (ops != [] ==> DisjointRun(ops[..|ops| - 1]))
  }

  /** `live` is `abs` with ids filled in. */
  ghost predicate Represents(live: map<string, Service>, abs: map<string, Service>) {
    && live.Keys == abs.Keys
    && forall key :: key in live ==> live[key] == abs[key].(id := live[key].id)
  }

  lemma RepresentsDisjoint(live: map<string, Service>, abs: map<string, Service>)
    requires Represents(live, abs)
    ensures Disjoint(live) <==> Disjoint(abs)
  {
    forall key | key in live ensures Frontends(live[key]) == Frontends(abs[key]) {
      assert live[key] == abs[key].(id := live[key].id);
      assert forall p :: FrontendOf(live[key], p) == FrontendOf(abs[key], p);
    }
  }

  lemma StepRepresents(code: Code, s: State, op: Op, abs: map<string, Service>)
    requires HistoryInv(s) && Fitting(s) && Fresh(op) && Represents(s.services, abs)
    requires !Step(code, s, op).crashed
    ensures Represents(Step(code, s, op).services, AbsStep(abs, op))
  {
    match op
    case DeleteOp(key, gone) =>
    case UpdateOp(svc, gone, order) =>
      var rest, a := UpdateServices(code, s, svc, gone, order);
      UpdateRepresents(s.services, rest, abs, svc, a);
  }

  lemma UpdateServices(code: Code, s: State, svc: Service, gone: seq<Port>, order: seq<Port>)
      returns (rest: map<string, Service>, a: Service)
    requires HistoryInv(s) && Fitting(s) && |svc.endpoints| < 0x1_0000
    requires !Update(code, s, svc, gone, order).crashed
    ensures rest == s.services - {svc.Key()} && a == svc.(id := a.id)
    ensures Update(code, s, svc, gone, order).services == rest[svc.Key() := a]
  {
    var d := if svc.Key() in s.services then Delete(code, s, svc.Key(), gone) else s;
    AssignedKeeps(d.used, svc);
    rest, a := d.services, Assigned(d.used, svc);
  }

  lemma UpdateRepresents(live: map<string, Service>, rest: map<string, Service>, abs: map<string, Service>,
                         svc: Service, a: Service)
    requires Represents(live, abs) && rest == live - {svc.Key()} && a == svc.(id := a.id)
    ensures Represents(rest[svc.Key() := a], abs[svc.Key() := svc])
  {
  }

  lemma {:induction false} RunRepresents(code: Code, ops: seq<Op>)
    requires FreshOps(ops) && RunFits(code, ops) && !Run(code, ops).crashed
    ensures Represents(Run(code, ops).services, AbsRun(ops))
  {
    if ops != [] {
      FreshInit(ops);
      var init := ops[..|ops| - 1];
      RunRepresents(code, init);
      RunHistory(code, init);
      StepRepresents(code, Run(code, init), ops[|ops| - 1], AbsRun(init));
    }
  }

  // ---------------------------------------------------------------------------
  // The invariant between operations.

  ghost predicate EntryLive(live: map<string, Service>, f: Frontend) {
    exists key :: key in live && f in Frontends(live[key])
  }

  ghost predicate SlotLive(live: map<string, Service>, k: U32, b: Backend) {
    exists key :: key in live && OwnSlot(live[key], k, b)
  }

  ghost predicate AllComplete(live: map<string, Service>, t: Tables) {
    forall key :: key in live ==> Complete(t, live[key])
  }

  ghost predicate EntriesLive(live: map<string, Service>, t: Tables) {
    forall f :: f in t.services ==> EntryLive(live, f)
  }

  ghost predicate SlotsLive(live: map<string, Service>, t: Tables) {
    forall k :: k in t.backends ==> SlotLive(live, k, t.backends[k])
  }

  /** The tables hold every live service completely, and nothing but live services. */
  ghost predicate LiveInv(live: map<string, Service>, t: Tables) {
    AllComplete(live, t) && EntriesLive(live, t) && SlotsLive(live, t)
  }

  lemma AppendCompletes(t: Tables, a: Service, order: seq<Port>)
    requires |a.endpoints| < 0x1_0000 && Enumerates(order, a.ports)
    ensures Complete(Appended(t, a, order), a)
  {
    var u := Appended(t, a, order);
    forall p | p in a.ports
      ensures var f := FrontendOf(a, p);
              f in u.services && u.services[f] == EntryOf(a) && f in u.owner && u.owner[f] == a
    {
      AppendedEntries(t, a, order, FrontendOf(a, p));
    }
    if a.ports != {} {
      var p :| p in a.ports;
      assert p in order;
      forall k | SlotsOf(a, k) ensures k in u.backends { AppendedBackends(t, a, order, k); }
    }
  }

  lemma AppendKeepsComplete(t: Tables, a: Service, order: seq<Port>, b: Service)
    requires |a.endpoints| < 0x1_0000 && Enumerates(order, a.ports)
    requires Complete(t, b) && Frontends(a) !! Frontends(b)
    ensures Complete(Appended(t, a, order), b)
  {
    var u := Appended(t, a, order);
    FrontendsInAll(a, order);
    forall p | p in b.ports
      ensures var f := FrontendOf(b, p);
              f in u.services && u.services[f] == EntryOf(b) && f in u.owner && u.owner[f] == b
    {
      var f := FrontendOf(b, p);
      assert f in Frontends(b);
      AppendedEntries(t, a, order, f);
    }
    forall k | SlotsOf(b, k) && k in t.backends ensures k in u.backends { AppendedBackends(t, a, order, k); }
  }

  lemma AppendEntryLive(live: map<string, Service>, t: Tables, a: Service, order: seq<Port>, f: Frontend)
    requires EntriesLive(live, t) && |a.endpoints| < 0x1_0000 && Enumerates(order, a.ports)
    requires a.Key() !in live && f in Appended(t, a, order).services
    ensures EntryLive(live[a.Key() := a], f)
  {
    var live' := live[a.Key() := a];
    FrontendsInAll(a, order);
    AppendedEntries(t, a, order, f);
    if f in Frontends(a) {
      assert a.Key() in live' && f in Frontends(live'[a.Key()]);
    } else {
      assert EntryLive(live, f);
      var key :| key in live && f in Frontends(live[key]);
      assert key in live' && f in Frontends(live'[key]);
    }
  }

  lemma AppendSlotLive(live: map<string, Service>, t: Tables, a: Service, order: seq<Port>, k: U32)
    requires SlotsLive(live, t) && |a.endpoints| < 0x1_0000 && Enumerates(order, a.ports)
    requires a.Key() !in live && k in Appended(t, a, order).backends
    ensures SlotLive(live[a.Key() := a], k, Appended(t, a, order).backends[k])
  {
    var u, live' := Appended(t, a, order), live[a.Key() := a];
    AppendedBackends(t, a, order, k);
    if order != [] && SlotsOf(a, k) {
      assert order[|order| - 1] in order;
      assert OwnSlot(live'[a.Key()], k, u.backends[k]);
    } else {
      assert SlotLive(live, k, t.backends[k]);
      var key :| key in live && OwnSlot(live[key], k, t.backends[k]);
      assert OwnSlot(live'[key], k, u.backends[k]);
    }
  }

  lemma AppendAllComplete(live: map<string, Service>, t: Tables, a: Service, order: seq<Port>)
    requires AllComplete(live, t) && |a.endpoints| < 0x1_0000 && Enumerates(order, a.ports)
    requires a.Key() !in live && Disjoint(live[a.Key() := a])
    ensures AllComplete(live[a.Key() := a], Appended(t, a, order))
  {
    var u, live' := Appended(t, a, order), live[a.Key() := a];
    AppendCompletes(t, a, order);
    forall key | key in live' ensures Complete(u, live'[key]) {
      if key != a.Key() {
        assert Frontends(live'[a.Key()]) !! Frontends(live'[key]);
        AppendKeepsComplete(t, a, order, live[key]);
      }
    }
  }

  lemma AppendLive(live: map<string, Service>, t: Tables, a: Service, order: seq<Port>)
    requires LiveInv(live, t) && |a.endpoints| < 0x1_0000 && Enumerates(order, a.ports)
    requires a.Key() !in live && Disjoint(live[a.Key() := a])
    ensures LiveInv(live[a.Key() := a], Appended(t, a, order))
  {
    var u, live' := Appended(t, a, order), live[a.Key() := a];
    AppendAllComplete(live, t, a, order);
    forall f | f in u.services ensures EntryLive(live', f) { AppendEntryLive(live, t, a, order, f); }
    forall k | k in u.backends ensures SlotLive(live', k, u.backends[k]) { AppendSlotLive(live, t, a, order, k); }
  }

  /** What a delete that goes through leaves behind. */
  function Dropped(t: Tables, svc: Service, block: set<U32>): Tables {
    t.(services := t.services - Frontends(svc), backends := t.backends - block)
  }

  /** `block` has all that `svc` has in the table and nothing of the other live services. */
  ghost predicate JustTheBlockOf(live: map<string, Service>, t: Tables, key: string, block: set<U32>)
    requires key in live
  {
    && (forall k :: k in t.backends && SlotsOf(live[key], k) && live[key].ports != {} ==> k in block)
    && (forall l, k :: l in live && l != key && k in block ==> !SlotsOf(live[l], k))
  }

  lemma DropAllComplete(live: map<string, Service>, t: Tables, key: string, block: set<U32>, l: string)
    requires AllComplete(live, t) && key in live && l in live && l != key && Disjoint(live)
    requires JustTheBlockOf(live, t, key, block)
    ensures Complete(Dropped(t, live[key], block), live[l])
  {
    var a := live[l];
    assert Complete(t, a) && Frontends(live[key]) !! Frontends(a);
    forall p | p in a.ports ensures FrontendOf(a, p) !in Frontends(live[key]) {
      assert FrontendOf(a, p) in Frontends(a);
    }
    forall k | SlotsOf(a, k) ensures k !in block { }
  }

  lemma DropEntryLive(live: map<string, Service>, t: Tables, key: string, block: set<U32>, f: Frontend)
    requires EntriesLive(live, t) && key in live && f in Dropped(t, live[key], block).services
    ensures EntryLive(live - {key}, f)
  {
    assert EntryLive(live, f);
    var l :| l in live && f in Frontends(live[l]);
    assert l in live - {key};
  }

  lemma DropSlotLive(live: map<string, Service>, t: Tables, key: string, block: set<U32>, k: U32)
    requires SlotsLive(live, t) && key in live && k in Dropped(t, live[key], block).backends
    requires JustTheBlockOf(live, t, key, block)
    ensures SlotLive(live - {key}, k, t.backends[k])
  {
    assert SlotLive(live, k, t.backends[k]);
    var l :| l in live && OwnSlot(live[l], k, t.backends[k]);
    assert SlotsOf(live[l], k);
    assert l in live - {key};
  }

  lemma DropLive(live: map<string, Service>, t: Tables, key: string, block: set<U32>)
    requires LiveInv(live, t) && key in live && Disjoint(live)
    requires JustTheBlockOf(live, t, key, block)
    ensures LiveInv(live - {key}, Dropped(t, live[key], block))
  {
    var u, live' := Dropped(t, live[key], block), live - {key};
    forall l | l in live' ensures Complete(u, live'[l]) { DropAllComplete(live, t, key, block, l); }
    forall f | f in u.services ensures EntryLive(live', f) { DropEntryLive(live, t, key, block, f); }
    forall k | k in u.backends ensures SlotLive(live', k, u.backends[k]) { DropSlotLive(live, t, key, block, k); }
  }
}
