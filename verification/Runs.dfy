/**
  Whole runs: exactly which operations go through, and that between operations the tables
  hold exactly the live services.
 */
module Runs {
  import opened Words
  import opened Services
  import opened Tables
  import opened Writes
  import opened Machine
  import opened Safety
  import opened Ids
  import opened Live

  // ---------------------------------------------------------------------------
  // What the tables have to hold, in terms of the abstract table.

  function AllFrontends(abs: map<string, Service>): set<Frontend> {
    set key, p | key in abs && p in abs[key].ports :: FrontendOf(abs[key], p)
  }

  datatype Slot = Slot(key: string, index: int)

  function AllSlots(abs: map<string, Service>): set<Slot> {
    set key, i | key in abs && abs[key].ports != {} && 0 <= i < |abs[key].endpoints| :: Slot(key, i)
  }

  /** The code's delete gets through a service only when it has nothing to do for the backends. */
  predicate Removable(svc: Service) { svc.ports == {} || svc.endpoints == [] }

  /** The operation goes through, given what is live: a condition on the abstract table alone. */
  predicate Accepts(code: Code, abs: map<string, Service>, op: Op) {
    match op
    case DeleteOp(key, _) =>
      code.Written? && key in abs ==> Removable(abs[key])
    case UpdateOp(svc, _, _) =>
      var abs' := abs[svc.Key() := svc];
      && (code.Written? && svc.Key() in abs ==> Removable(abs[svc.Key()]))
      && |AllFrontends(abs')| <= CAPACITY
      && (code.Repaired? ==> |AllSlots(abs')| <= CAPACITY)
  }

  predicate AllAccepted(code: Code, ops: seq<Op>) {
    ops == [] || (AllAccepted(code, ops[..|ops| - 1]) && Accepts(code, AbsRun(ops[..|ops| - 1]), ops[|ops| - 1]))
  }

  // ---------------------------------------------------------------------------
  // Sizes.

  /** A bijection preserves size. */
  lemma {:induction false} ImageSize<A, B>(xs: set<A>, ys: set<B>, f: A -> B)
    requires forall x, y :: x in xs && y in xs && f(x) == f(y) ==> x == y
    requires forall x :: x in xs ==> f(x) in ys
    requires forall y :: y in ys ==> exists x :: x in xs && f(x) == y
    ensures |ys| == |xs|
    decreases xs
  {
    if xs == {} {
      assert ys == {};
    } else {
      var x :| x in xs;
      ImageSize(xs - {x}, ys - {f(x)}, f);
    }
  }

  lemma {:induction false} BlockSize(svc: Service, base: U16, n: nat)
    requires base + n <= 0x1_0000
    ensures |Block(svc, base, n)| == n
  {
    if n > 0 {
      var before, key := Block(svc, base, n - 1), BackendKey(svc.id, base + n - 1);
      BlockSize(svc, base, n - 1);
      assert key !in before;
      assert |before + {key}| == |before| + 1;
    }
  }

  ghost predicate UniqueIds(live: map<string, Service>) {
    forall k, l :: k in live && l in live && live[k].id == live[l].id ==> k == l
  }

  /** Live services are keyed by their own key and small enough. */
  ghost predicate Keyed(live: map<string, Service>) {
    forall key :: key in live ==> live[key].Key() == key && WellFormed(live[key])
  }

  lemma EntryKeys(live: map<string, Service>, t: Tables)
    requires LiveInv(live, t)
    ensures t.services.Keys == AllFrontends(live)
  {
    forall f | f in t.services ensures f in AllFrontends(live) {
      assert EntryLive(live, f);
      var key :| key in live && f in Frontends(live[key]);
      var p :| p in live[key].ports && f == FrontendOf(live[key], p);
    }
    forall f | f in AllFrontends(live) ensures f in t.services {
      var key, p :| key in live && p in live[key].ports && f == FrontendOf(live[key], p);
      assert Complete(t, live[key]);
    }
  }

  lemma SameFrontends(live: map<string, Service>, abs: map<string, Service>)
    requires Represents(live, abs)
    ensures AllFrontends(live) == AllFrontends(abs) && AllSlots(live) == AllSlots(abs)
  {
    forall key | key in live
      ensures live[key].ports == abs[key].ports && live[key].endpoints == abs[key].endpoints
      ensures forall p :: FrontendOf(live[key], p) == FrontendOf(abs[key], p)
    {
      assert live[key] == abs[key].(id := live[key].id);
    }
    assert forall f :: f in AllFrontends(live) <==> f in AllFrontends(abs);
  }

  lemma SlotIsLive(live: map<string, Service>, x: Slot)
    ensures x in AllSlots(live) <==>
            x.key in live && live[x.key].ports != {} && 0 <= x.index < |live[x.key].endpoints|
  {
    assert x == Slot(x.key, x.index);
  }

  /** The key under which a live slot is stored. */
  function StoredAt(live: map<string, Service>, slot: Slot): U32 {
    if slot.key in live && 0 <= slot.index < 0xFFFF then BackendKey(live[slot.key].id, slot.index + 1) else 0
  }

  lemma StoredAtInjective(live: map<string, Service>, x: Slot, y: Slot)
    requires Keyed(live) && UniqueIds(live)
    requires x in AllSlots(live) && y in AllSlots(live) && StoredAt(live, x) == StoredAt(live, y)
    ensures x == y
  {
    SlotIsLive(live, x);
    SlotIsLive(live, y);
    assert WellFormed(live[x.key]) && WellFormed(live[y.key]);
    BackendKeyInjective(live[x.key].id, x.index + 1, live[y.key].id, y.index + 1);
  }

  lemma StoredSlotIsLive(live: map<string, Service>, t: Tables, k: U32) returns (x: Slot)
    requires SlotsLive(live, t) && Keyed(live) && k in t.backends
    ensures x in AllSlots(live) && StoredAt(live, x) == k
  {
    assert SlotLive(live, k, t.backends[k]);
    var key :| key in live && OwnSlot(live[key], k, t.backends[k]);
    assert WellFormed(live[key]);
    x := Slot(key, SlotOf(k) - 1);
    SlotIsLive(live, x);
    BackendKeyBijective(0, 0, 0, 0, k);
  }

  lemma LiveSlotIsStored(live: map<string, Service>, t: Tables, x: Slot)
    requires AllComplete(live, t) && Keyed(live) && x in AllSlots(live)
    ensures StoredAt(live, x) in t.backends
  {
    SlotIsLive(live, x);
    assert WellFormed(live[x.key]) && Complete(t, live[x.key]);
    assert SlotsOf(live[x.key], StoredAt(live, x));
  }

  lemma StoredOnto(live: map<string, Service>, t: Tables)
    requires SlotsLive(live, t) && Keyed(live)
    ensures forall k :: k in t.backends.Keys ==> exists x :: x in AllSlots(live) && StoredAt(live, x) == k
  {
    forall k | k in t.backends.Keys ensures exists x :: x in AllSlots(live) && StoredAt(live, x) == k {
      var x := StoredSlotIsLive(live, t, k);
    }
  }

  lemma StoredInto(live: map<string, Service>, t: Tables)
    requires AllComplete(live, t) && Keyed(live)
    ensures forall x :: x in AllSlots(live) ==> StoredAt(live, x) in t.backends.Keys
  {
    forall x | x in AllSlots(live) ensures StoredAt(live, x) in t.backends.Keys { LiveSlotIsStored(live, t, x); }
  }

  lemma StoredApart(live: map<string, Service>)
    requires Keyed(live) && UniqueIds(live)
    ensures forall x, y :: x in AllSlots(live) && y in AllSlots(live) && StoredAt(live, x) == StoredAt(live, y) ==>
                             x == y
  {
    forall x, y | x in AllSlots(live) && y in AllSlots(live) && StoredAt(live, x) == StoredAt(live, y)
      ensures x == y
    {
      StoredAtInjective(live, x, y);
    }
  }

  /** With unique ids the backend map has one entry per live slot. */
  lemma SlotCount(live: map<string, Service>, t: Tables)
    requires LiveInv(live, t) && Keyed(live) && UniqueIds(live)
    ensures |t.backends| == |AllSlots(live)|
  {
    StoredOnto(live, t);
    StoredInto(live, t);
    StoredApart(live);
    ImageSize(AllSlots(live), t.backends.Keys, x => StoredAt(live, x));
  }

  /** With one id for all, the backend map cannot outgrow its capacity. */
  lemma OneIdFits(live: map<string, Service>, t: Tables, svc: Service)
    requires SlotsLive(live, t) && Keyed(live)
    requires forall key :: key in live ==> live[key].id == svc.id
    ensures |t.backends| < CAPACITY
  {
    var block := Block(svc, 1, 0xFFFF);
    forall k | k in t.backends ensures k in block {
      assert SlotLive(live, k, t.backends[k]);
      var key :| key in live && OwnSlot(live[key], k, t.backends[k]);
      assert WellFormed(live[key]);
    }
    BlockSize(svc, 1, 0xFFFF);
    SubsetSize(t.backends.Keys, block);
    assert |t.backends.Keys| == |t.backends|;
  }

  lemma SubsetSize<T>(a: set<T>, b: set<T>)
    requires a <= b
    ensures |a| <= |b|
  {
    assert b == a + (b - a);
  }

  // ---------------------------------------------------------------------------
  // One operation.

  /** As written, a service that ever had ports and endpoints is still live: nothing can remove it. */
  ghost predicate NothingRemoved(s: State) {
    forall a :: a in s.pool ==> Removable(a) || (a.Key() in s.services && s.services[a.Key()] == a)
  }

  /** What holds between two operations. */
  ghost predicate Quiet(code: Code, s: State) {
    && !s.crashed && HistoryInv(s) && WithinCapacity(s.Now())
    && Disjoint(s.services) && LiveInv(s.services, s.Now())
    && (code.Written? ==> NothingRemoved(s))
  }

  ghost predicate IdsFor(code: Code, s: State) {
    if code.Written? then WrittenIds(s)
    else forall a, b :: a in s.pool && b in s.pool && a.id == b.id ==> a == b
  }

  lemma QuietKeyed(code: Code, s: State)
    requires Quiet(code, s)
    ensures Keyed(s.services) && Fitting(s)
    ensures code.Repaired? && IdsFor(code, s) ==> UniqueIds(s.services)
  {
    LiveIsPooled(s);
    if code.Repaired? && IdsFor(code, s) { PooledIds(s); }
  }

  lemma LiveIsPooled(s: State)
    requires HistoryInv(s)
    ensures Keyed(s.services) && Fitting(s)
    ensures forall key :: key in s.services ==> s.services[key] in s.pool
  {
    forall key | key in s.services ensures s.services[key].Key() == key && WellFormed(s.services[key]) {
      assert s.services[key] in s.pool;
    }
  }

  lemma PooledIds(s: State)
    requires Keyed(s.services) && forall key :: key in s.services ==> s.services[key] in s.pool
    requires IdsFor(Repaired, s)
    ensures UniqueIds(s.services)
  {
    forall k, l | k in s.services && l in s.services && s.services[k].id == s.services[l].id ensures k == l {
      assert s.services[k] in s.pool && s.services[l] in s.pool;
    }
  }

  lemma WellFormedDistinct(svc: Service, order: seq<Port>)
    requires WellFormed(svc) && Enumerates(order, svc.ports)
    ensures DistinctFrontends(svc, order)
  {
    forall i, j | 0 <= i < j < |order| ensures FrontendOf(svc, order[i]) != FrontendOf(svc, order[j]) {
      assert order[i] in svc.ports && order[j] in svc.ports;
    }
  }

  lemma CompleteHasAll(t: Tables, svc: Service)
    requires Complete(t, svc) && |svc.endpoints| < 0x1_0000
    ensures Frontends(svc) <= t.services.Keys
    ensures svc.ports != {} ==> Block(svc, 1, |svc.endpoints|) <= t.backends.Keys
  {
    if svc.ports != {} {
      forall k | k in Block(svc, 1, |svc.endpoints|) ensures k in t.backends.Keys { assert SlotsOf(svc, k); }
    }
  }

  lemma SlotZeroFree(live: map<string, Service>, t: Tables, id: U16)
    requires SlotsLive(live, t)
    ensures BackendKey(id, 0) !in t.backends
  {
    var k := BackendKey(id, 0);
    assert k in t.backends ==> SlotLive(live, k, t.backends[k]);
  }

  lemma EnumeratesNone(order: seq<Port>, ports: set<Port>)
    requires Enumerates(order, ports)
    ensures order == [] <==> ports == {}
  {
    if order != [] { assert order[0] in order; }
  }

  lemma WrittenDeleteTables(trace: Trace, svc: Service, gone: seq<Port>)
    requires WellFormed(svc) && Complete(Last(trace), svc) && Enumerates(gone, svc.ports)
    requires BackendKey(svc.id, 0) !in Last(trace).backends
    ensures var r := Perform(trace, DeleteWrites(Written, svc, gone));
            (r.done <==> Removable(svc)) && (r.done ==> Last(r.trace) == Dropped(Last(trace), svc, {}))
  {
    WrittenDeleteEffect(trace, svc, gone);
    WellFormedDistinct(svc, gone);
    CompleteHasAll(Last(trace), svc);
    FrontendsInAll(svc, gone);
    EnumeratesNone(gone, svc.ports);
    assert Last(trace).backends - {} == Last(trace).backends;
  }

  lemma RepairedDeleteTables(trace: Trace, svc: Service, gone: seq<Port>)
    requires WellFormed(svc) && Complete(Last(trace), svc) && Enumerates(gone, svc.ports)
    ensures var r := Perform(trace, DeleteWrites(Repaired, svc, gone));
            r.done && Last(r.trace) == Dropped(Last(trace), svc, OwnBlock(svc))
  {
    RepairedDeleteEffect(trace, svc, gone);
    WellFormedDistinct(svc, gone);
    CompleteHasAll(Last(trace), svc);
    FrontendsInAll(svc, gone);
    EnumeratesNone(gone, svc.ports);
  }

  /** The backend keys an append of `svc` fills. */
  function OwnBlock(svc: Service): set<U32>
    requires |svc.endpoints| < 0x1_0000
  {
    if svc.ports == {} then {} else Block(svc, 1, |svc.endpoints|)
  }

  lemma OwnBlockIsJustThat(live: map<string, Service>, t: Tables, key: string)
    requires key in live && UniqueIds(live) && |live[key].endpoints| < 0x1_0000
    ensures JustTheBlockOf(live, t, key, OwnBlock(live[key]))
  {
    var block := OwnBlock(live[key]);
    forall l, k | l in live && l != key && k in block ensures !SlotsOf(live[l], k) {
      assert live[l].id != live[key].id;
    }
  }

  /** As written, deleting a live service crashes exactly when it has a port and an endpoint. */
  lemma WrittenDelete(s: State, key: string, gone: seq<Port>)
    requires Quiet(Written, s) && key in s.services && Enumerates(gone, s.services[key].ports) && Fitting(s)
    ensures var d := Delete(Written, s, key, gone);
            && (d.crashed <==> !Removable(s.services[key]))
            && (!d.crashed ==> LiveInv(d.services, d.Now()))
  {
    var svc, t := s.services[key], s.Now();
    QuietKeyed(Written, s);
    assert Complete(t, svc);
    SlotZeroFree(s.services, t, svc.id);
    WrittenDeleteTables(s.trace, svc, gone);
    if Removable(svc) {
      assert JustTheBlockOf(s.services, t, key, {});
      DropLive(s.services, t, key, {});
    }
  }

  /** As written, what the refused delete of a live service leaves: all but the entry of the first port visited. */
  lemma WrittenRefusedLeaves(s: State, key: string, gone: seq<Port>)
    requires Quiet(Written, s) && key in s.services && Enumerates(gone, s.services[key].ports) && Fitting(s)
    requires !Removable(s.services[key])
    ensures var d := Delete(Written, s, key, gone);
            && gone != [] && d.crashed && d.services == s.services
            && d.Now().backends == s.Now().backends
            && EntryGone(s.Now().services, d.Now().services, s.services[key], gone[0])
  {
    var t, svc := s.Now(), s.services[key];
    QuietKeyed(Written, s);
    SlotZeroFree(s.services, t, svc.id);
    RefusedTables(s.trace, svc, gone);
  }

  lemma RefusedTables(trace: Trace, svc: Service, gone: seq<Port>)
    requires Complete(Last(trace), svc) && WellFormed(svc) && Enumerates(gone, svc.ports) && !Removable(svc)
    requires BackendKey(svc.id, 0) !in Last(trace).backends
    ensures gone != []
    ensures var t, r := Last(trace), Perform(trace, DeletePorts(svc, gone));
            && !r.done && Last(r.trace).backends == t.backends
            && EntryGone(t.services, Last(r.trace).services, svc, gone[0])
  {
    EnumeratesNone(gone, svc.ports);
    assert gone[0] in svc.ports;
    CompleteEntry(Last(trace), svc, gone[0]);
    RefusedDeleteLeaves(trace, svc, gone);
    EntryIsGone(Last(trace).services, svc, gone[0]);
  }

  /** Repaired, deleting a live service always goes through. */
  lemma RepairedDelete(s: State, key: string, gone: seq<Port>)
    requires Quiet(Repaired, s) && IdsFor(Repaired, s)
    requires key in s.services && Enumerates(gone, s.services[key].ports) && Fitting(s)
    ensures var d := Delete(Repaired, s, key, gone);
            !d.crashed && LiveInv(d.services, d.Now())
  {
    var svc, t := s.services[key], s.Now();
    QuietKeyed(Repaired, s);
    assert Complete(t, svc);
    RepairedDeleteTables(s.trace, svc, gone);
    OwnBlockIsJustThat(s.services, t, key);
    DropLive(s.services, t, key, OwnBlock(svc));
  }

  lemma DeleteQuiet(code: Code, s: State, key: string, gone: seq<Port>)
    requires Quiet(code, s) && IdsFor(code, s) && Fitting(s)
    requires key in s.services && Enumerates(gone, s.services[key].ports)
    ensures var d := Delete(code, s, key, gone);
            && (d.crashed <==> code.Written? && !Removable(s.services[key]))
            && (!d.crashed ==> Quiet(code, d) && IdsFor(code, d))
  {
    var d := Delete(code, s, key, gone);
    if code.Written? { WrittenDelete(s, key, gone); } else { RepairedDelete(s, key, gone); }
    DeleteHistory(code, s, key, gone);
    PerformCapacity(s.trace, DeleteWrites(code, s.services[key], gone));
    if code.Written? && !d.crashed { OthersStay(s, d, key); }
  }

  lemma OthersStay(s: State, d: State, key: string)
    requires NothingRemoved(s) && key in s.services && s.services[key].Key() == key && Removable(s.services[key])
    requires d.services == s.services - {key} && d.pool == s.pool
    ensures NothingRemoved(d)
  {
  }

  lemma AppendDone(code: Code, s: State, svc: Service, order: seq<Port>)
    requires WithinCapacity(s.Now()) && |svc.endpoints| < 0x1_0000 && Enumerates(order, svc.ports)
    ensures var e, u := Append(code, s, svc, order), Appended(s.Now(), Assigned(s.used, svc), order);
            && (!e.crashed <==> WithinCapacity(u))
            && WithinCapacity(e.Now())
            && (!e.crashed ==> e.Now() == u)
  {
    var a := Assigned(s.used, svc);
    AppendOnlyPuts(a, order);
    AppendEffect(s.Now(), a, order);
    PutsDoneIff(s.trace, AppendWrites(a, order));
    PerformEnds(s.trace, AppendWrites(a, order));
  }

  /** What the tables need after an append, in terms of the live services. */
  lemma AppendFits(code: Code, s: State, svc: Service, order: seq<Port>)
    requires Quiet(code, s) && WellFormed(svc) && Enumerates(order, svc.ports) && svc.Key() !in s.services
    requires IdsFor(code, Append(code, s, svc, order))
    requires Disjoint(s.services[svc.Key() := Assigned(s.used, svc)])
    ensures var a := Assigned(s.used, svc);
            var live, u := s.services[svc.Key() := a], Appended(s.Now(), a, order);
            && LiveInv(live, u)
            && |u.services| == |AllFrontends(live)|
            && |u.backends| == (if code.Repaired? then |AllSlots(live)| else |u.backends|)
            && (code.Written? ==> |u.backends| < CAPACITY)
  {
    var a := Assigned(s.used, svc);
    AssignedKeeps(s.used, svc);
    var live, u := s.services[svc.Key() := a], Appended(s.Now(), a, order);
    AppendLive(s.services, s.Now(), a, order);
    LiveIsPooled(s);
    AppendPoolIds(code, s, svc, order, live);
    LiveSizes(code, live, u, a);
  }

  lemma LiveSizes(code: Code, live: map<string, Service>, u: Tables, a: Service)
    requires LiveInv(live, u) && Keyed(live) && (code.Repaired? ==> UniqueIds(live))
    requires code.Written? ==> forall key :: key in live ==> live[key].id == a.id
    ensures |u.services| == |AllFrontends(live)|
    ensures code.Repaired? ==> |u.backends| == |AllSlots(live)|
    ensures code.Written? ==> |u.backends| < CAPACITY
  {
    EntryKeys(live, u);
    assert |u.services.Keys| == |u.services|;
    if code.Repaired? { SlotCount(live, u); } else { OneIdFits(live, u, a); }
  }

  lemma AppendPoolIds(code: Code, s: State, svc: Service, order: seq<Port>, live: map<string, Service>)
    requires |svc.endpoints| < 0x1_0000 && IdsFor(code, Append(code, s, svc, order))
    requires Keyed(live) && forall key :: key in live ==> live[key] in s.pool + {Assigned(s.used, svc)}
    ensures code.Repaired? ==> UniqueIds(live)
    ensures code.Written? ==> forall key :: key in live ==> live[key].id == Assigned(s.used, svc).id
  {
    assert Append(code, s, svc, order).pool == s.pool + {Assigned(s.used, svc)};
  }

  lemma AppendQuiet(code: Code, s: State, svc: Service, order: seq<Port>)
    requires Quiet(code, s) && WellFormed(svc) && Enumerates(order, svc.ports) && svc.Key() !in s.services
    requires IdsFor(code, Append(code, s, svc, order))
    requires Disjoint(s.services[svc.Key() := Assigned(s.used, svc)])
    ensures var e, live := Append(code, s, svc, order), s.services[svc.Key() := Assigned(s.used, svc)];
            && (!e.crashed <==> |AllFrontends(live)| <= CAPACITY && (code.Repaired? ==> |AllSlots(live)| <= CAPACITY))
            && (!e.crashed ==> Quiet(code, e))
  {
    var e, a := Append(code, s, svc, order), Assigned(s.used, svc);
    AppendFits(code, s, svc, order);
    AppendDone(code, s, svc, order);
    AppendHistory(code, s, svc, order);
    AssignedKeeps(s.used, svc);
    if !e.crashed {
      if code.Written? { AppendNothingRemoved(s, e, a); }
      assert e.Now() == Appended(s.Now(), a, order);
    }
  }

  lemma AppendNothingRemoved(s: State, e: State, a: Service)
    requires NothingRemoved(s) && a.Key() !in s.services
    requires e.pool == s.pool + {a} && e.services == s.services[a.Key() := a]
    ensures NothingRemoved(e)
  {
  }

  lemma AppendStep(code: Code, d: State, svc: Service, order: seq<Port>, abs: map<string, Service>)
    requires Quiet(code, d) && WellFormed(svc) && Enumerates(order, svc.ports) && svc.Key() !in d.services
    requires IdsFor(code, Append(code, d, svc, order))
    requires Represents(d.services, abs - {svc.Key()}) && Disjoint(abs[svc.Key() := svc])
    ensures var e, abs' := Append(code, d, svc, order), abs[svc.Key() := svc];
            && (!e.crashed <==> |AllFrontends(abs')| <= CAPACITY && (code.Repaired? ==> |AllSlots(abs')| <= CAPACITY))
            && (!e.crashed ==> Quiet(code, e))
  {
    var a := Assigned(d.used, svc);
    AssignedKeeps(d.used, svc);
    AppendRepresents(d.services, abs, svc, a);
    AppendQuiet(code, d, svc, order);
  }

  lemma AppendRepresents(live: map<string, Service>, abs: map<string, Service>, svc: Service, a: Service)
    requires Represents(live, abs - {svc.Key()}) && a == svc.(id := a.id)
    requires Disjoint(abs[svc.Key() := svc])
    ensures var live', abs' := live[svc.Key() := a], abs[svc.Key() := svc];
            Disjoint(live') && AllFrontends(live') == AllFrontends(abs') && AllSlots(live') == AllSlots(abs')
  {
    var live', abs' := live[svc.Key() := a], abs[svc.Key() := svc];
    assert Represents(live', abs');
    RepresentsDisjoint(live', abs');
    SameFrontends(live', abs');
  }

  lemma RepresentsLess(live: map<string, Service>, abs: map<string, Service>, key: string)
    requires Represents(live, abs)
    ensures Represents(live - {key}, abs - {key})
    ensures key in live ==> (Removable(live[key]) <==> Removable(abs[key]))
  {
  }

  lemma DeleteRepresents(code: Code, s: State, key: string, gone: seq<Port>, abs: map<string, Service>)
    requires Fitting(s) && !s.crashed && Represents(s.services, abs) && !Delete(code, s, key, gone).crashed
    ensures Represents(Delete(code, s, key, gone).services, abs - {key})
    ensures key !in Delete(code, s, key, gone).services
  {
    RepresentsLess(s.services, abs, key);
    assert Delete(code, s, key, gone).services == s.services - {key};
  }

  lemma DeleteOpQuiet(code: Code, s: State, key: string, gone: seq<Port>, abs: map<string, Service>)
    requires Quiet(code, s) && Fitting(s) && IdsFor(code, s) && Represents(s.services, abs)
    requires key in s.services ==> Enumerates(gone, s.services[key].ports)
    ensures var d := Delete(code, s, key, gone);
            && (!d.crashed <==> Accepts(code, abs, DeleteOp(key, gone)))
            && (!d.crashed ==> Quiet(code, d) && IdsFor(code, d))
  {
    if key in s.services {
      RepresentsLess(s.services, abs, key);
      DeleteQuiet(code, s, key, gone);
    }
  }

  /** An update is a delete, if there is something to delete, then an append. */
  lemma UpdateIsDeleteAppend(code: Code, s: State, svc: Service, gone: seq<Port>, order: seq<Port>)
    requires Fitting(s) && |svc.endpoints| < 0x1_0000 && Keyed(s.services) && !s.crashed
    ensures var d := Delete(code, s, svc.Key(), gone);
            Fitting(d) && Update(code, s, svc, gone, order) == if d.crashed then d else Append(code, d, svc, order)
  {
  }

  lemma UpdateQuiet(code: Code, s: State, svc: Service, gone: seq<Port>, order: seq<Port>, abs: map<string, Service>)
    requires Quiet(code, s) && Fitting(s)
    requires Fresh(UpdateOp(svc, gone, order)) && OrdersFit(s, UpdateOp(svc, gone, order))
    requires IdsFor(code, s) && IdsFor(code, Update(code, s, svc, gone, order))
    requires Represents(s.services, abs) && Disjoint(abs[svc.Key() := svc])
    ensures var e := Update(code, s, svc, gone, order);
            && (!e.crashed <==> Accepts(code, abs, UpdateOp(svc, gone, order)))
            && (!e.crashed ==> Quiet(code, e))
  {
    QuietKeyed(code, s);
    UpdateIsDeleteAppend(code, s, svc, gone, order);
    DeleteOpQuiet(code, s, svc.Key(), gone, abs);
    var d := Delete(code, s, svc.Key(), gone);
    if !d.crashed { DeleteRepresents(code, s, svc.Key(), gone, abs); }
    UpdateFromParts(code, d, Update(code, s, svc, gone, order), svc, gone, order, abs);
  }

  /** The append's half of an update, after its delete led to `d`. */
  lemma UpdateFromParts(code: Code, d: State, e: State, svc: Service, gone: seq<Port>, order: seq<Port>,
                        abs: map<string, Service>)
    requires WellFormed(svc) && Enumerates(order, svc.ports) && Disjoint(abs[svc.Key() := svc])
    requires !d.crashed <==> Accepts(code, abs, DeleteOp(svc.Key(), gone))
    requires !d.crashed ==> Quiet(code, d) && svc.Key() !in d.services && Represents(d.services, abs - {svc.Key()})
    requires e == (if d.crashed then d else Append(code, d, svc, order)) && IdsFor(code, e)
    ensures !e.crashed <==> Accepts(code, abs, UpdateOp(svc, gone, order))
    ensures !e.crashed ==> Quiet(code, e)
  {
    if !d.crashed { AppendStep(code, d, svc, order, abs); }
  }

  /** One operation between quiet states: it goes through exactly when it is accepted. */
  lemma StepQuiet(code: Code, s: State, op: Op, abs: map<string, Service>)
    requires Quiet(code, s) && Fitting(s) && Fresh(op) && OrdersFit(s, op)
    requires IdsFor(code, s) && IdsFor(code, Step(code, s, op))
    requires Represents(s.services, abs) && Disjoint(AbsStep(abs, op))
    ensures !Step(code, s, op).crashed <==> Accepts(code, abs, op)
    ensures !Step(code, s, op).crashed ==> Quiet(code, Step(code, s, op))
  {
    match op
    case DeleteOp(key, gone) => DeleteOpQuiet(code, s, key, gone, abs);
    case UpdateOp(svc, gone, order) => UpdateQuiet(code, s, svc, gone, order, abs);
  }

  lemma IdsOfRun(code: Code, ops: seq<Op>)
    requires FreshOps(ops) && (code.Repaired? ==> Updates(ops) < ID_LIMIT)
    ensures IdsFor(code, Run(code, ops))
  {
    if code.Written? { WrittenRunIds(ops); } else { var m := RepairedRunIds(ops); }
  }

  lemma UpdatesInit(ops: seq<Op>)
    requires ops != []
    ensures Updates(ops[..|ops| - 1]) <= Updates(ops)
  {
  }

  /**
    Exactly which runs go through, stated on the abstract table alone, and what holds after them.
    As written the run is over as soon as it updates or deletes a service that has a port and an
    endpoint; repaired, only the capacity of the two maps can end it.
   */
  lemma {:induction false} RunGoesThrough(code: Code, ops: seq<Op>)
    requires FreshOps(ops) && RunFits(code, ops) && DisjointRun(ops)
    requires code.Repaired? ==> Updates(ops) < ID_LIMIT
    ensures !Run(code, ops).crashed <==> AllAccepted(code, ops)
    ensures !Run(code, ops).crashed ==> Quiet(code, Run(code, ops))
  {
    if ops == [] {
      EmptyIsQuiet(code);
    } else {
      FreshInit(ops);
      UpdatesInit(ops);
      var init := ops[..|ops| - 1];
      RunGoesThrough(code, init);
      var s := Run(code, init);
      if !s.crashed {
        IdsOfRun(code, init);
        IdsOfRun(code, ops);
        RunRepresents(code, init);
        StepQuiet(code, s, ops[|ops| - 1], AbsRun(init));
      }
    }
  }

  lemma EmptyIsQuiet(code: Code)
    ensures Quiet(code, INITIAL)
  {
  }
}
