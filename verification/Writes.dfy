/**
  The writes one control-plane operation performs, in the order it performs them, and what
  a whole batch does to the tables.
 */
module Writes {
  import opened Words
  import opened Services
  import opened Tables

  /**
    `Written` is the code as it stands. `Repaired` differs in three places: the id just
    assigned is the one marked as used, a delete drops the slots an append wrote, and it
    drops the block once rather than once per port.
   */
  datatype Code = Written | Repaired

  function EntryOf(svc: Service): Entry {
    Entry(svc.id, |svc.endpoints| % 0x1_0000)
  }

  /** What an append for `port` stores in slot `slot`. */
  function SlotValue(svc: Service, port: Port, slot: nat): Backend
    requires 1 <= slot <= |svc.endpoints|
  {
    Backend(svc.endpoints[slot - 1], ByteSwap(port.targetPort))
  }

  function PutSlots(svc: Service, port: Port, n: nat): (ws: seq<Write>)
    requires n <= |svc.endpoints| < 0x1_0000
    ensures |ws| == n
  {
    if n == 0 then []
    else PutSlots(svc, port, n - 1) + [PutBackend(BackendKey(svc.id, n), SlotValue(svc, port, n))]
  }

  /** One visit of `AppendService`'s port iteration: the entry first, then every slot. */
  function AppendPort(svc: Service, port: Port): seq<Write>
    requires |svc.endpoints| < 0x1_0000
  {
    [PutEntry(FrontendOf(svc, port), EntryOf(svc), svc)] + PutSlots(svc, port, |svc.endpoints|)
  }

  function AppendWrites(svc: Service, order: seq<Port>): seq<Write>
    requires |svc.endpoints| < 0x1_0000
  {
    if order == [] then []
    else AppendWrites(svc, order[..|order| - 1]) + AppendPort(svc, order[|order| - 1])
  }

  /** Drops of the first `n` slots, counted from `base`: the code starts at 0, an append at 1. */
  function DropSlots(svc: Service, base: U16, n: nat): (ws: seq<Write>)
    requires base + n <= 0x1_0000
    ensures |ws| == n
  {
    if n == 0 then []
    else DropSlots(svc, base, n - 1) + [DropBackend(BackendKey(svc.id, base + n - 1))]
  }

  /** One visit of `DeleteService`'s port iteration. */
  function DeletePort(svc: Service, port: Port): seq<Write>
    requires |svc.endpoints| < 0x1_0000
  {
    [DropEntry(FrontendOf(svc, port))] + DropSlots(svc, 0, |svc.endpoints|)
  }

  function DeletePorts(svc: Service, order: seq<Port>): seq<Write>
    requires |svc.endpoints| < 0x1_0000
  {
    if order == [] then []
    else DeletePorts(svc, order[..|order| - 1]) + DeletePort(svc, order[|order| - 1])
  }

  function DropEntries(svc: Service, order: seq<Port>): seq<Write> {
    if order == [] then []
    else DropEntries(svc, order[..|order| - 1]) + [DropEntry(FrontendOf(svc, order[|order| - 1]))]
  }

  function DeleteWrites(code: Code, svc: Service, order: seq<Port>): seq<Write>
    requires |svc.endpoints| < 0x1_0000
  {
    match code
    case Written => DeletePorts(svc, order)
    case Repaired => DropEntries(svc, order) + if order == [] then [] else DropSlots(svc, 1, |svc.endpoints|)
  }

  // ---------------------------------------------------------------------------
  // Every single write of an append is of one of two forms.

  /** The write puts an entry of `svc` or one of its slots. */
  predicate OwnWrite(svc: Service, w: Write) {
    match w
    case PutEntry(f, e, writer) => writer == svc && e == EntryOf(svc) && f in Frontends(svc)
    case PutBackend(k, b) => OwnSlot(svc, k, b)
    case _ => false
  }

  /** `b` is what some visit of `svc` stores under key `k`. */
  predicate OwnSlot(svc: Service, k: U32, b: Backend) {
    && IdOf(k) == svc.id
    && 1 <= SlotOf(k) <= |svc.endpoints|
    && exists q :: q in svc.ports && b == SlotValue(svc, q, SlotOf(k))
  }

  lemma {:induction false} PutSlotsOwn(svc: Service, port: Port, n: nat, w: Write)
    requires n <= |svc.endpoints| < 0x1_0000 && port in svc.ports
    requires w in PutSlots(svc, port, n)
    ensures OwnWrite(svc, w)
  {
    if w in PutSlots(svc, port, n - 1) {
      PutSlotsOwn(svc, port, n - 1, w);
    } else {
      assert w == PutBackend(BackendKey(svc.id, n), SlotValue(svc, port, n));
    }
  }

  lemma {:induction false} AppendWritesOwn(svc: Service, order: seq<Port>, w: Write)
    requires |svc.endpoints| < 0x1_0000
    requires forall p :: p in order ==> p in svc.ports
    requires w in AppendWrites(svc, order)
    ensures OwnWrite(svc, w)
  {
    var init, p := order[..|order| - 1], order[|order| - 1];
    if w in AppendWrites(svc, init) {
      AppendWritesOwn(svc, init, w);
    } else {
      assert w in AppendPort(svc, p);
      assert p in svc.ports;
      if w == AppendPort(svc, p)[0] {
        assert FrontendOf(svc, p) in Frontends(svc);
      } else {
        PutSlotsOwn(svc, p, |svc.endpoints|, w);
      }
    }
  }

  predicate IsDrop(w: Write) { w.DropEntry? || w.DropBackend? }

  lemma {:induction false} DropSlotsDrop(svc: Service, base: U16, n: nat, w: Write)
    requires base + n <= 0x1_0000
    requires w in DropSlots(svc, base, n)
    ensures IsDrop(w)
  {
    if w in DropSlots(svc, base, n - 1) { DropSlotsDrop(svc, base, n - 1, w); }
  }

  lemma {:induction false} DeletePortsDrop(svc: Service, order: seq<Port>, w: Write)
    requires |svc.endpoints| < 0x1_0000
    requires w in DeletePorts(svc, order)
    ensures IsDrop(w)
  {
    var init := order[..|order| - 1];
    if w in DeletePorts(svc, init) {
      DeletePortsDrop(svc, init, w);
    } else if w in DropSlots(svc, 0, |svc.endpoints|) {
      DropSlotsDrop(svc, 0, |svc.endpoints|, w);
    }
  }

  lemma {:induction false} DropEntriesDrop(svc: Service, order: seq<Port>, w: Write)
    requires w in DropEntries(svc, order)
    ensures IsDrop(w)
  {
    if w in DropEntries(svc, order[..|order| - 1]) { DropEntriesDrop(svc, order[..|order| - 1], w); }
  }

  lemma DeleteWritesDrop(code: Code, svc: Service, order: seq<Port>, w: Write)
    requires |svc.endpoints| < 0x1_0000
    requires w in DeleteWrites(code, svc, order)
    ensures IsDrop(w)
  {
    if code.Written? {
      DeletePortsDrop(svc, order, w);
    } else if w in DropEntries(svc, order) {
      DropEntriesDrop(svc, order, w);
    } else {
      DropSlotsDrop(svc, 1, |svc.endpoints|, w);
    }
  }

  // ---------------------------------------------------------------------------
  // The effect of whole batches.

  /** `b` after the first `n` slot puts of a visit of `port`. */
  function WithSlots(b: map<U32, Backend>, svc: Service, port: Port, n: nat): (r: map<U32, Backend>)
    requires n <= |svc.endpoints| < 0x1_0000
    ensures forall k: U32 :: IdOf(k) == svc.id && 1 <= SlotOf(k) <= n ==>
                               k in r && r[k] == SlotValue(svc, port, SlotOf(k))
    ensures forall k: U32 :: !(IdOf(k) == svc.id && 1 <= SlotOf(k) <= n) ==>
                               (k in r <==> k in b) && (k in b ==> r[k] == b[k])
  {
    if n == 0 then b
    else
      KeyHasSlot(svc.id, n);
      WithSlots(b, svc, port, n - 1)[BackendKey(svc.id, n) := SlotValue(svc, port, n)]
  }

  lemma KeyHasSlot(id: U16, slot: U16)
    ensures forall k: U32 :: k == BackendKey(id, slot) <==> IdOf(k) == id && SlotOf(k) == slot
  {
    forall k: U32 | IdOf(k) == id && SlotOf(k) == slot ensures k == BackendKey(id, slot) {
      BackendKeyBijective(0, 0, 0, 0, k);
    }
  }

  /** The keys of `n` consecutive slots of `svc`. */
  function Block(svc: Service, base: U16, n: nat): (b: set<U32>)
    requires base + n <= 0x1_0000
    ensures forall k: U32 :: k in b <==> IdOf(k) == svc.id && base <= SlotOf(k) < base + n
  {
    if n == 0 then {}
    else
      KeyHasSlot(svc.id, base + n - 1);
      Block(svc, base, n - 1) + {BackendKey(svc.id, base + n - 1)}
  }

  lemma MinusUnion<K, V>(m: map<K, V>, a: set<K>, b: set<K>)
    ensures m - (a + b) == (m - a) - b
  {
  }

  lemma {:induction false} PutSlotsEffect(t: Tables, svc: Service, port: Port, n: nat)
    requires n <= |svc.endpoints| < 0x1_0000
    ensures ApplyAll(t, PutSlots(svc, port, n)) == t.(backends := WithSlots(t.backends, svc, port, n))
  {
    if n > 0 {
      PutSlotsEffect(t, svc, port, n - 1);
      var ws := PutSlots(svc, port, n);
      assert ws[..|ws| - 1] == PutSlots(svc, port, n - 1);
    }
  }

  /** The tables after one visit. */
  function Visited(t: Tables, svc: Service, p: Port): Tables
    requires |svc.endpoints| < 0x1_0000
  {
    PartVisited(t, svc, p, |svc.endpoints|)
  }

  /** The tables after the visits of `order`. */
  function Appended(t: Tables, svc: Service, order: seq<Port>): Tables
    requires |svc.endpoints| < 0x1_0000
  {
    if order == [] then t else Visited(Appended(t, svc, order[..|order| - 1]), svc, order[|order| - 1])
  }

  lemma AppendPortEffect(t: Tables, svc: Service, p: Port)
    requires |svc.endpoints| < 0x1_0000
    ensures ApplyAll(t, AppendPort(svc, p)) == Visited(t, svc, p)
  {
    FirstWrites(t, svc, p, |svc.endpoints|);
  }

  lemma {:induction false} AppendEffect(t: Tables, svc: Service, order: seq<Port>)
    requires |svc.endpoints| < 0x1_0000
    ensures ApplyAll(t, AppendWrites(svc, order)) == Appended(t, svc, order)
  {
    if order != [] {
      var init, p := order[..|order| - 1], order[|order| - 1];
      AppendEffect(t, svc, init);
      ApplyAllConcat(t, AppendWrites(svc, init), AppendPort(svc, p));
      AppendPortEffect(Appended(t, svc, init), svc, p);
    }
  }

  /** An append points its own frontends at itself and touches no other. */
  lemma {:induction false} AppendedEntries(t: Tables, svc: Service, order: seq<Port>, f: Frontend)
    requires |svc.endpoints| < 0x1_0000
    ensures var a := Appended(t, svc, order);
            if f in FrontendsIn(svc, order) then
              f in a.services && a.services[f] == EntryOf(svc) && f in a.owner && a.owner[f] == svc
            else
              && (f in a.services <==> f in t.services) && (f in t.services ==> a.services[f] == t.services[f])
              && (f in a.owner <==> f in t.owner) && (f in t.owner ==> a.owner[f] == t.owner[f])
  {
    if order != [] {
      AppendedEntries(t, svc, order[..|order| - 1], f);
      InFrontendsStep(svc, order, f);
    }
  }

  lemma InFrontendsStep(svc: Service, order: seq<Port>, f: Frontend)
    requires order != []
    ensures f in FrontendsIn(svc, order) <==>
            f in FrontendsIn(svc, order[..|order| - 1]) || f == FrontendOf(svc, order[|order| - 1])
  {
    assert order == order[..|order| - 1] + [order[|order| - 1]];
    FrontendsStep(svc, order[..|order| - 1], order[|order| - 1]);
  }

  /** An append leaves its own block as the last visited port writes it and touches no other. */
  lemma {:induction false} AppendedBackends(t: Tables, svc: Service, order: seq<Port>, k: U32)
    requires |svc.endpoints| < 0x1_0000
    ensures var a := Appended(t, svc, order);
            if order != [] && IdOf(k) == svc.id && 1 <= SlotOf(k) <= |svc.endpoints| then
              k in a.backends && a.backends[k] == SlotValue(svc, order[|order| - 1], SlotOf(k))
            else
              (k in a.backends <==> k in t.backends) && (k in t.backends ==> a.backends[k] == t.backends[k])
  {
    if order != [] { AppendedBackends(t, svc, order[..|order| - 1], k); }
  }

  lemma AppendOnlyPuts(svc: Service, order: seq<Port>)
    requires |svc.endpoints| < 0x1_0000
    requires forall p :: p in order ==> p in svc.ports
    ensures OnlyPuts(AppendWrites(svc, order))
  {
    forall w | w in AppendWrites(svc, order) ensures IsPut(w) {
      AppendWritesOwn(svc, order, w);
    }
  }

  /** `ws` goes through exactly when all of `keys` are there, and then removes just them. */
  ghost predicate DropsBackends(trace: Trace, ws: seq<Write>, keys: set<U32>) {
    var t, r := Last(trace), Perform(trace, ws);
    && (r.done <==> keys <= t.backends.Keys)
    && (r.done ==> Last(r.trace) == t.(backends := t.backends - keys))
  }

  lemma DropsOneMore(trace: Trace, ws: seq<Write>, keys: set<U32>, key: U32)
    requires DropsBackends(trace, ws, keys) && key !in keys
    ensures DropsBackends(trace, ws + [DropBackend(key)], keys + {key})
  {
    PerformMore(trace, ws, DropBackend(key));
    MinusUnion(Last(trace).backends, keys, {key});
  }

  lemma {:induction false} DropSlotsEffect(trace: Trace, svc: Service, base: U16, n: nat)
    requires base + n <= 0x1_0000
    ensures DropsBackends(trace, DropSlots(svc, base, n), Block(svc, base, n))
  {
    if n == 0 {
      assert Last(trace).backends - {} == Last(trace).backends;
    } else {
      DropSlotsEffect(trace, svc, base, n - 1);
      DropsOneMore(trace, DropSlots(svc, base, n - 1), Block(svc, base, n - 1), BackendKey(svc.id, base + n - 1));
    }
  }

  function FrontendsIn(svc: Service, order: seq<Port>): set<Frontend> {
    set p | p in order :: FrontendOf(svc, p)
  }

  ghost predicate DistinctFrontends(svc: Service, order: seq<Port>) {
    forall i, j :: 0 <= i < j < |order| ==> FrontendOf(svc, order[i]) != FrontendOf(svc, order[j])
  }

  lemma FrontendsInAll(svc: Service, order: seq<Port>)
    requires Enumerates(order, svc.ports)
    ensures FrontendsIn(svc, order) == Frontends(svc)
  {
  }

  /** `ws` goes through exactly when `keys` are `distinct` and all there, and then removes just them. */
  ghost predicate DropsFrontends(trace: Trace, ws: seq<Write>, keys: set<Frontend>, distinct: bool) {
    var t, r := Last(trace), Perform(trace, ws);
    && (r.done <==> distinct && keys <= t.services.Keys)
    && (r.done ==> Last(r.trace) == t.(services := t.services - keys))
  }

  lemma DropsOneMoreFrontend(trace: Trace, ws: seq<Write>, keys: set<Frontend>, distinct: bool, f: Frontend)
    requires DropsFrontends(trace, ws, keys, distinct)
    ensures DropsFrontends(trace, ws + [DropEntry(f)], keys + {f}, distinct && f !in keys)
  {
    PerformMore(trace, ws, DropEntry(f));
    MinusUnion(Last(trace).services, keys, {f});
  }

  lemma {:induction false} DropEntriesEffect(trace: Trace, svc: Service, order: seq<Port>)
    ensures DropsFrontends(trace, DropEntries(svc, order), FrontendsIn(svc, order), DistinctFrontends(svc, order))
  {
    if order == [] {
      assert FrontendsIn(svc, order) == {};
      assert Last(trace).services - {} == Last(trace).services;
    } else {
      var init, p := order[..|order| - 1], order[|order| - 1];
      DropEntriesEffect(trace, svc, init);
      DropsOneMoreFrontend(trace, DropEntries(svc, init), FrontendsIn(svc, init),
                           DistinctFrontends(svc, init), FrontendOf(svc, p));
      assert order == init + [p];
      FrontendsStep(svc, init, p);
    }
  }

  lemma FrontendsStep(svc: Service, init: seq<Port>, p: Port)
    ensures FrontendsIn(svc, init + [p]) == FrontendsIn(svc, init) + {FrontendOf(svc, p)}
    ensures DistinctFrontends(svc, init + [p]) <==>
            DistinctFrontends(svc, init) && FrontendOf(svc, p) !in FrontendsIn(svc, init)
  {
    var order := init + [p];
    if FrontendOf(svc, p) in FrontendsIn(svc, init) {
      var q :| q in init && FrontendOf(svc, q) == FrontendOf(svc, p);
      var i :| 0 <= i < |init| && init[i] == q;
      assert order[i] == q && order[|init|] == p;
    } else if DistinctFrontends(svc, init) {
      forall i, j | 0 <= i < j < |order| ensures FrontendOf(svc, order[i]) != FrontendOf(svc, order[j]) {
        assert order[i] in init;
      }
    } else {
      var i, j :| 0 <= i < j < |init| && FrontendOf(svc, init[i]) == FrontendOf(svc, init[j]);
      assert order[i] == init[i] && order[j] == init[j];
    }
  }

  // ---------------------------------------------------------------------------
  // A refused write ends the batch.

  lemma {:induction false} AppendStop(start: Trace, svc: Service, a: seq<Port>, b: seq<Port>)
    requires |svc.endpoints| < 0x1_0000
    requires !Perform(start, AppendWrites(svc, a)).done
    ensures Perform(start, AppendWrites(svc, a + b)) == Perform(start, AppendWrites(svc, a))
    decreases |b|
  {
    if b == [] {
      assert a + b == a;
    } else {
      var init, p := b[..|b| - 1], b[|b| - 1];
      assert (a + b)[..|a + b| - 1] == a + init;
      AppendStop(start, svc, a, init);
      PerformConcat(start, AppendWrites(svc, a + init), AppendPort(svc, p));
    }
  }

  lemma {:induction false} DeleteStop(start: Trace, svc: Service, a: seq<Port>, b: seq<Port>)
    requires |svc.endpoints| < 0x1_0000
    requires !Perform(start, DeletePorts(svc, a)).done
    ensures Perform(start, DeletePorts(svc, a + b)) == Perform(start, DeletePorts(svc, a))
    decreases |b|
  {
    if b == [] {
      assert a + b == a;
    } else {
      var init, p := b[..|b| - 1], b[|b| - 1];
      assert (a + b)[..|a + b| - 1] == a + init;
      DeleteStop(start, svc, a, init);
      PerformConcat(start, DeletePorts(svc, a + init), DeletePort(svc, p));
    }
  }

  /** With no endpoints, or no ports, the code's delete drops entries only. */
  lemma {:induction false} NoEndpointsNoDrops(svc: Service, order: seq<Port>)
    requires svc.endpoints == []
    ensures DeletePorts(svc, order) == DropEntries(svc, order)
  {
    if order != [] { NoEndpointsNoDrops(svc, order[..|order| - 1]); }
  }

  /**
    The code's delete, when slot 0 of the service's block is not in the map (no append ever
    writes it): it goes through exactly when there is no port to visit, or no endpoint and all
    entries are distinct and present. It then removes the entries and no backend.
   */
  lemma WrittenDeleteEffect(trace: Trace, svc: Service, order: seq<Port>)
    requires |svc.endpoints| < 0x1_0000
    requires BackendKey(svc.id, 0) !in Last(trace).backends
    ensures DropsFrontends(trace, DeletePorts(svc, order), FrontendsIn(svc, order),
                           order == [] || (svc.endpoints == [] && DistinctFrontends(svc, order)))
  {
    if svc.endpoints == [] || order == [] {
      if order != [] { NoEndpointsNoDrops(svc, order); }
      DropEntriesEffect(trace, svc, order);
    } else {
      var first, rest := order[..1], order[1..];
      assert order == first + rest;
      assert first[..0] == [];
      FirstVisitRefused(trace, svc, order[0]);
      assert DeletePorts(svc, first) == [] + DeletePort(svc, order[0]) == DeletePort(svc, order[0]);
      DeleteStop(trace, svc, first, rest);
    }
  }

  lemma {:induction false} DropSlotsStop(start: Trace, svc: Service, i: nat, n: nat)
    requires i <= n < 0x1_0000
    requires !Perform(start, DropSlots(svc, 0, i)).done
    ensures Perform(start, DropSlots(svc, 0, n)) == Perform(start, DropSlots(svc, 0, i))
    decreases n - i
  {
    if i < n {
      DropSlotsStop(start, svc, i, n - 1);
      PerformMore(start, DropSlots(svc, 0, n - 1), DropBackend(BackendKey(svc.id, n - 1)));
    }
  }

  /**
    What a delete that is refused leaves: the first port's entry is gone, everything else is
    still there, and no later port was visited.
   */
  lemma RefusedDeleteLeaves(trace: Trace, svc: Service, order: seq<Port>)
    requires 0 < |svc.endpoints| < 0x1_0000 && order != [] && FrontendOf(svc, order[0]) in Last(trace).services
    requires BackendKey(svc.id, 0) !in Last(trace).backends
    ensures Perform(trace, DeletePorts(svc, order)) ==
            Performed(trace + [Apply(Last(trace), DropEntry(FrontendOf(svc, order[0])))], false)
  {
    var first, rest, drop := order[..1], order[1..], DropEntry(FrontendOf(svc, order[0]));
    assert order == first + rest && first[..0] == [];
    var dropped := trace + [Apply(Last(trace), drop)];
    PerformMore(trace, [], drop);
    assert [] + [drop] == [drop];
    PerformConcat(trace, [drop], DropSlots(svc, 0, |svc.endpoints|));
    FirstSlotRefused(dropped, svc, |svc.endpoints|);
    assert DeletePorts(svc, first) == [] + DeletePort(svc, order[0]) == DeletePort(svc, order[0]);
    DeleteStop(trace, svc, first, rest);
  }

  lemma FirstSlotRefused(trace: Trace, svc: Service, n: nat)
    requires 0 < n < 0x1_0000 && BackendKey(svc.id, 0) !in Last(trace).backends
    ensures Perform(trace, DropSlots(svc, 0, n)) == Performed(trace, false)
  {
    var one := DropBackend(BackendKey(svc.id, 0));
    OneDrop(svc);
    PerformMore(trace, [], one);
    assert [] + [one] == [one];
    DropSlotsStop(trace, svc, 1, n);
  }

  lemma OneDrop(svc: Service)
    ensures DropSlots(svc, 0, 1) == [DropBackend(BackendKey(svc.id, 0))]
  {
    assert DropSlots(svc, 0, 0) == [];
  }

  lemma FirstVisitRefused(trace: Trace, svc: Service, p: Port)
    requires 0 < |svc.endpoints| < 0x1_0000
    requires BackendKey(svc.id, 0) !in Last(trace).backends
    ensures !Perform(trace, DeletePort(svc, p)).done
  {
    var drop := [DropEntry(FrontendOf(svc, p))];
    var r := Perform(trace, drop);
    PerformConcat(trace, drop, DropSlots(svc, 0, |svc.endpoints|));
    if r.done {
      PerformEnds(trace, drop);
      PerformMore(trace, [], DropEntry(FrontendOf(svc, p)));
      assert [] + drop == drop;
      assert Last(r.trace).backends == Last(trace).backends;
      DropSlotsEffect(r.trace, svc, 0, |svc.endpoints|);
      assert BackendKey(svc.id, 0) in Block(svc, 0, |svc.endpoints|);
    }
  }

  /** The repaired delete goes through exactly when entries and block are there, and removes just them. */
  lemma RepairedDeleteEffect(trace: Trace, svc: Service, order: seq<Port>)
    requires |svc.endpoints| < 0x1_0000
    ensures var t, r := Last(trace), Perform(trace, DeleteWrites(Repaired, svc, order));
            var block := if order == [] then {} else Block(svc, 1, |svc.endpoints|);
            && (r.done <==> DistinctFrontends(svc, order) && FrontendsIn(svc, order) <= t.services.Keys
                            && block <= t.backends.Keys)
            && (r.done ==> Last(r.trace) == t.(services := t.services - FrontendsIn(svc, order),
                                               backends := t.backends - block))
  {
    var t := Last(trace);
    var entries := DropEntries(svc, order);
    DropEntriesEffect(trace, svc, order);
    if order == [] {
      assert t.backends - {} == t.backends;
      assert entries + [] == entries;
    } else {
      PerformConcat(trace, entries, DropSlots(svc, 1, |svc.endpoints|));
      var r := Perform(trace, entries);
      if r.done { DropSlotsEffect(r.trace, svc, 1, |svc.endpoints|); }
    }
  }

  // ---------------------------------------------------------------------------
  // One visit, in terms of what clients see.

  /** The entry clients of the port find is the service's; every other is as before. */
  ghost predicate EntrySet(before: map<Frontend, Entry>, after: map<Frontend, Entry>, svc: Service, port: Port) {
    forall f ::
      if SeenAt(svc, port, f) then f in after && after[f] == Entry(svc.id, |svc.endpoints| % 0x1_0000)
      else (f in after <==> f in before) && (f in after ==> after[f] == before[f])
  }

  /** Slot `i + 1` holds endpoint `i` and the target port in network byte order. */
  ghost predicate SlotsSet(after: map<U32, Backend>, svc: Service, port: Port) {
    forall i :: 0 <= i < |svc.endpoints| && i < 0xFFFF ==> SlotSet(after, svc, port, i)
  }

  ghost predicate SlotSet(after: map<U32, Backend>, svc: Service, port: Port, i: int)
    requires 0 <= i < |svc.endpoints| && i < 0xFFFF
  {
    var key := BackendKey(svc.id, i + 1);
    key in after && after[key] == Backend(svc.endpoints[i], LoadLittleEndian(StoreBigEndian(port.targetPort)))
  }

  /** The entry was there and is gone; every other is as before. */
  ghost predicate EntryGone(before: map<Frontend, Entry>, after: map<Frontend, Entry>, svc: Service, port: Port) {
    forall f ::
      if SeenAt(svc, port, f) then f in before && f !in after
      else (f in after <==> f in before) && (f in after ==> after[f] == before[f])
  }

  /** Slots 0 to n - 1 were there and are gone. */
  ghost predicate SlotsGone(before: map<U32, Backend>, after: map<U32, Backend>, svc: Service) {
    forall k: U32 :: IdOf(k) == svc.id && SlotOf(k) < |svc.endpoints| ==> k in before && k !in after
  }

  lemma SlotsAreSet(b: map<U32, Backend>, svc: Service, port: Port)
    requires |svc.endpoints| < 0x1_0000
    ensures SlotsSet(WithSlots(b, svc, port, |svc.endpoints|), svc, port)
  {
    var after := WithSlots(b, svc, port, |svc.endpoints|);
    ByteSwapIsNetworkOrder(port.targetPort);
    forall i | 0 <= i < |svc.endpoints| && i < 0xFFFF ensures SlotSet(after, svc, port, i) {
      assert SlotOf(BackendKey(svc.id, i + 1)) == i + 1;
    }
  }

  lemma EntryIsSet(before: map<Frontend, Entry>, svc: Service, port: Port)
    ensures EntrySet(before, before[FrontendOf(svc, port) := EntryOf(svc)], svc, port)
  {
    forall f ensures SeenAt(svc, port, f) <==> f == FrontendOf(svc, port) { FrontendIsSeen(svc, port, f); }
  }

  lemma EntryIsGone(before: map<Frontend, Entry>, svc: Service, port: Port)
    requires FrontendOf(svc, port) in before
    ensures EntryGone(before, before - {FrontendOf(svc, port)}, svc, port)
  {
    forall f ensures SeenAt(svc, port, f) <==> f == FrontendOf(svc, port) { FrontendIsSeen(svc, port, f); }
  }

  /** What a visit of an append that goes through leaves. */
  lemma VisitSets(start: Trace, svc: Service, port: Port)
    requires |svc.endpoints| < 0x1_0000 && Perform(start, AppendPort(svc, port)).done
    ensures var t, u := Last(start), Last(Perform(start, AppendPort(svc, port)).trace);
            EntrySet(t.services, u.services, svc, port) && SlotsSet(u.backends, svc, port)
  {
    PerformEnds(start, AppendPort(svc, port));
    AppendPortEffect(Last(start), svc, port);
    SlotsAreSet(Last(start).backends, svc, port);
    EntryIsSet(Last(start).services, svc, port);
  }

  /** What a visit of a delete that goes through leaves. */
  lemma VisitDrops(start: Trace, svc: Service, port: Port)
    requires |svc.endpoints| < 0x1_0000 && Perform(start, DeletePort(svc, port)).done
    ensures var t, u := Last(start), Last(Perform(start, DeletePort(svc, port)).trace);
            EntryGone(t.services, u.services, svc, port) && SlotsGone(t.backends, u.backends, svc)
  {
    var drop := DropEntry(FrontendOf(svc, port));
    PerformMore(start, [], drop);
    assert [] + [drop] == [drop];
    PerformConcat(start, [drop], DropSlots(svc, 0, |svc.endpoints|));
    var dropped := Perform(start, [drop]);
    assert dropped.done && Last(dropped.trace) == Apply(Last(start), drop);
    DropSlotsEffect(dropped.trace, svc, 0, |svc.endpoints|);
    EntryIsGone(Last(start).services, svc, port);
  }

  // ---------------------------------------------------------------------------
  // The points in between.

  /** A batch that goes through takes one point per write; each is where the writes so far lead. */
  lemma PerformPoint(start: Trace, batch: seq<Write>, m: nat, n: nat, ws: seq<Write>, vs: seq<Write>, u: Tables)
    requires batch == ws + vs && |ws| == n + 1 && |batch| == 1 + m && Perform(start, batch).done
    requires ApplyAll(Last(start), ws) == u
    ensures var trace := Perform(start, batch).trace;
            |trace| == |start| + 1 + m && start <= trace && trace[|start| + n] == u
  {
    PerformConcat(start, ws, vs);
    DoneLength(start, ws);
    DoneLength(start, ws + vs);
    PerformEnds(start, ws);
    PerformEnds(Perform(start, ws).trace, vs);
  }

  lemma {:induction false} DoneLength(trace: Trace, ws: seq<Write>)
    requires Perform(trace, ws).done
    ensures |Perform(trace, ws).trace| == |trace| + |ws|
  {
    if ws != [] { DoneLength(trace, ws[..|ws| - 1]); }
  }

  lemma {:induction false} PutSlotsPrefix(svc: Service, port: Port, n: nat, m: nat) returns (rest: seq<Write>)
    requires n <= m <= |svc.endpoints| < 0x1_0000
    ensures PutSlots(svc, port, m) == PutSlots(svc, port, n) + rest
    decreases m - n
  {
    if n == m {
      rest := [];
    } else {
      rest := PutSlotsPrefix(svc, port, n, m - 1);
      rest := rest + [PutBackend(BackendKey(svc.id, m), SlotValue(svc, port, m))];
    }
  }

  /** The first `n` slots are set, every other key is as before. */
  ghost predicate SlotsUpTo(before: map<U32, Backend>, after: map<U32, Backend>, svc: Service, port: Port, n: nat) {
    && (forall i :: 0 <= i < n && i < |svc.endpoints| && i < 0xFFFF ==> SlotSet(after, svc, port, i))
    && (forall k: U32 :: !(IdOf(k) == svc.id && 1 <= SlotOf(k) <= n) ==>
          (k in after <==> k in before) && (k in after ==> after[k] == before[k]))
  }

  lemma SlotsAreUpTo(b: map<U32, Backend>, svc: Service, port: Port, n: nat)
    requires n <= |svc.endpoints| < 0x1_0000
    ensures SlotsUpTo(b, WithSlots(b, svc, port, n), svc, port, n)
  {
    var after := WithSlots(b, svc, port, n);
    ByteSwapIsNetworkOrder(port.targetPort);
    forall i | 0 <= i < n && i < 0xFFFF ensures SlotSet(after, svc, port, i) {
      assert SlotOf(BackendKey(svc.id, i + 1)) == i + 1;
    }
  }

  /** Every point of one visit: the entry goes in with the first write, then one slot with each, in order. */
  lemma VisitPoints(start: Trace, svc: Service, port: Port, trace: Trace, n: nat)
    requires n <= |svc.endpoints| < 0x1_0000 && Perform(start, AppendPort(svc, port)) == Performed(trace, true)
    ensures |trace| == |start| + 1 + |svc.endpoints| && start <= trace
    ensures EntrySet(Last(start).services, trace[|start| + n].services, svc, port)
    ensures SlotsUpTo(Last(start).backends, trace[|start| + n].backends, svc, port, n)
  {
    var ws, rest, u := FirstOf(Last(start), svc, port, n);
    PerformPoint(start, AppendPort(svc, port), |svc.endpoints|, n, ws, rest, u);
  }

  /** The tables after the entry and `n` slots of a visit. */
  function PartVisited(t: Tables, svc: Service, port: Port, n: nat): Tables
    requires n <= |svc.endpoints| < 0x1_0000
  {
    Tables(t.services[FrontendOf(svc, port) := EntryOf(svc)], WithSlots(t.backends, svc, port, n),
           t.owner[FrontendOf(svc, port) := svc])
  }

  lemma PartVisitedSets(t: Tables, svc: Service, port: Port, n: nat)
    requires n <= |svc.endpoints| < 0x1_0000
    ensures var u := PartVisited(t, svc, port, n);
            EntrySet(t.services, u.services, svc, port) && SlotsUpTo(t.backends, u.backends, svc, port, n)
  {
    SlotsAreUpTo(t.backends, svc, port, n);
    EntryIsSet(t.services, svc, port);
  }

  lemma FirstOf(t: Tables, svc: Service, port: Port, n: nat) returns (ws: seq<Write>, rest: seq<Write>, u: Tables)
    requires n <= |svc.endpoints| < 0x1_0000
    ensures AppendPort(svc, port) == ws + rest && |ws| == n + 1 && |AppendPort(svc, port)| == 1 + |svc.endpoints|
    ensures ApplyAll(t, ws) == u
    ensures EntrySet(t.services, u.services, svc, port) && SlotsUpTo(t.backends, u.backends, svc, port, n)
  {
    ws := [PutEntry(FrontendOf(svc, port), EntryOf(svc), svc)] + PutSlots(svc, port, n);
    u := PartVisited(t, svc, port, n);
    rest := CutAppendPort(svc, port, n);
    assert ApplyAll(t, ws) == u by { FirstWrites(t, svc, port, n); }
    PartVisitedSets(t, svc, port, n);
  }

  lemma CutAppendPort(svc: Service, port: Port, n: nat) returns (rest: seq<Write>)
    requires n <= |svc.endpoints| < 0x1_0000
    ensures AppendPort(svc, port) ==
            [PutEntry(FrontendOf(svc, port), EntryOf(svc), svc)] + PutSlots(svc, port, n) + rest
  {
    rest := PutSlotsPrefix(svc, port, n, |svc.endpoints|);
  }

  lemma FirstWrites(t: Tables, svc: Service, port: Port, n: nat)
    requires n <= |svc.endpoints| < 0x1_0000
    ensures ApplyAll(t, [PutEntry(FrontendOf(svc, port), EntryOf(svc), svc)] + PutSlots(svc, port, n)) ==
            PartVisited(t, svc, port, n)
  {
    var put := PutEntry(FrontendOf(svc, port), EntryOf(svc), svc);
    ApplyAllConcat(t, [put], PutSlots(svc, port, n));
    assert [put][..0] == [];
    assert ApplyAll(t, [put]) == Apply(t, put);
    PutSlotsEffect(Apply(t, put), svc, port, n);
  }
}
