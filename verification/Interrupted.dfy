/**
  Runs that end in a panic. An update whose delete is refused writes nothing of its new
  service; an append the full maps refuse writes the service as far as the ports it reached.
  Cutting the last operation down to what it carried out turns the run into one that goes
  through, and gives the exact condition for safe connects in every run of either code.
 */
module Interrupted {
  import opened Words
  import opened Services
  import opened Tables
  import opened DataPlane
  import opened Writes
  import opened Machine
  import opened Safety
  import opened Ids
  import opened Runs
  import opened Theorems

  // ---------------------------------------------------------------------------
  // How far an append gets.

  predicate EntriesFit(t: Tables, a: Service, order: seq<Port>) {
    |t.services.Keys + FrontendsIn(a, order)| <= CAPACITY
  }

  predicate SlotsFit(t: Tables, a: Service)
    requires |a.endpoints| < 0x1_0000
  {
    |t.backends.Keys + Block(a, 1, |a.endpoints|)| <= CAPACITY
  }

  /** The ports whose entries go in: as many as fit, and just one when the slots do not fit. */
  function Reached(t: Tables, a: Service, order: seq<Port>): (r: seq<Port>)
    requires |a.endpoints| < 0x1_0000
    ensures r <= order
    ensures |r| > 1 ==> SlotsFit(t, a)
  {
    if order == [] then []
    else
      var init := order[..|order| - 1];
      var r := Reached(t, a, init);
      if r == init && EntriesFit(t, a, order) && (init == [] || SlotsFit(t, a)) then order else r
  }

  lemma {:induction false} AppendedKeys(t: Tables, a: Service, order: seq<Port>)
    requires |a.endpoints| < 0x1_0000
    ensures Appended(t, a, order).services.Keys == t.services.Keys + FrontendsIn(a, order)
    ensures Appended(t, a, order).backends.Keys ==
            t.backends.Keys + if order == [] then {} else Block(a, 1, |a.endpoints|)
  {
    var u := Appended(t, a, order);
    forall f ensures f in u.services.Keys <==> f in t.services.Keys + FrontendsIn(a, order) {
      AppendedEntries(t, a, order, f);
    }
    forall k: U32
      ensures k in u.backends.Keys <==>
              k in t.backends.Keys + if order == [] then {} else Block(a, 1, |a.endpoints|)
    {
      AppendedBackends(t, a, order, k);
    }
  }

  lemma AppendDoneIff(start: Trace, a: Service, order: seq<Port>)
    requires WithinCapacity(Last(start)) && |a.endpoints| < 0x1_0000 && forall p :: p in order ==> p in a.ports
    ensures Perform(start, AppendWrites(a, order)).done <==>
            EntriesFit(Last(start), a, order) && (order == [] || SlotsFit(Last(start), a))
  {
    var t := Last(start);
    var u := Appended(t, a, order);
    AppendOnlyPuts(a, order);
    PutsDoneIff(start, AppendWrites(a, order));
    AppendEffect(t, a, order);
    AppendedKeys(t, a, order);
    assert |u.services| == |u.services.Keys| && |u.backends| == |u.backends.Keys|;
    assert |t.services| == |t.services.Keys| && |t.backends| == |t.backends.Keys|;
    if order == [] { assert t.backends.Keys + {} == t.backends.Keys; }
  }

  /** A port whose entry does not fit ends the append without another write. */
  lemma EntryRefused(trace: Trace, a: Service, p: Port)
    requires |a.endpoints| < 0x1_0000
    requires !Succeeds(Last(trace), PutEntry(FrontendOf(a, p), EntryOf(a), a))
    ensures Perform(trace, AppendPort(a, p)) == Performed(trace, false)
  {
    var put := PutEntry(FrontendOf(a, p), EntryOf(a), a);
    PerformMore(trace, [], put);
    assert [] + [put] == [put];
    PerformConcat(trace, [put], PutSlots(a, p, |a.endpoints|));
  }

  lemma EntryDoesNotFit(start: Trace, a: Service, init: seq<Port>, p: Port)
    requires WithinCapacity(Last(start)) && |a.endpoints| < 0x1_0000
    requires Perform(start, AppendWrites(a, init)).done
    requires EntriesFit(Last(start), a, init) && !EntriesFit(Last(start), a, init + [p])
    ensures !Succeeds(Last(Perform(start, AppendWrites(a, init)).trace), PutEntry(FrontendOf(a, p), EntryOf(a), a))
  {
    var t := Last(start);
    PerformEnds(start, AppendWrites(a, init));
    AppendEffect(t, a, init);
    AppendedKeys(t, a, init);
    FrontendsStep(a, init, p);
    OneTooMany(t.services.Keys, FrontendsIn(a, init), Appended(t, a, init).services, FrontendOf(a, p));
  }

  lemma OneTooMany(keys: set<Frontend>, more: set<Frontend>, m: map<Frontend, Entry>, f: Frontend)
    requires m.Keys == keys + more && |keys + more| <= CAPACITY && |keys + (more + {f})| > CAPACITY
    ensures f !in m && |m| == CAPACITY
  {
    assert keys + (more + {f}) == m.Keys + {f};
    assert |m| == |m.Keys|;
    assert f in m ==> m.Keys + {f} == m.Keys;
  }

  /** An append does exactly what the append of the ports it reaches does. */
  lemma {:induction false} StopsThere(start: Trace, a: Service, order: seq<Port>)
    requires WithinCapacity(Last(start)) && |a.endpoints| < 0x1_0000 && forall p :: p in order ==> p in a.ports
    ensures var r, all := Reached(Last(start), a, order), Perform(start, AppendWrites(a, order));
            && all.trace == Perform(start, AppendWrites(a, r)).trace
            && (all.done <==> r == order && (r == [] || SlotsFit(Last(start), a)))
  {
    if order != [] {
      var t, init, p := Last(start), order[..|order| - 1], order[|order| - 1];
      var r, before := Reached(t, a, init), Perform(start, AppendWrites(a, init));
      assert order == init + [p] && forall q :: q in init ==> q in order;
      StopsThere(start, a, init);
      PerformConcat(start, AppendWrites(a, init), AppendPort(a, p));
      AppendDoneIff(start, a, order);
      if before.done {
        AppendDoneIff(start, a, init);
        if !EntriesFit(t, a, order) {
          EntryDoesNotFit(start, a, init, p);
          EntryRefused(before.trace, a, p);
        }
      }
    }
  }

  lemma {:induction false} ReachedGoesIn(t: Tables, a: Service, order: seq<Port>)
    requires |a.endpoints| < 0x1_0000 && WithinCapacity(t)
    ensures EntriesFit(t, a, Reached(t, a, order))
  {
    assert |t.services| == |t.services.Keys| && t.services.Keys + {} == t.services.Keys;
    if order != [] { ReachedGoesIn(t, a, order[..|order| - 1]); }
  }

  // ---------------------------------------------------------------------------
  // The service cut down to the ports reached.

  function Cut(svc: Service, r: seq<Port>): Service { svc.(ports := set p | p in r) }

  lemma CutKeeps(svc: Service, r: seq<Port>)
    requires forall p :: p in r ==> p in svc.ports
    ensures var v := Cut(svc, r);
            && v.Key() == svc.Key() && (WellFormed(svc) ==> WellFormed(v)) && EntryOf(v) == EntryOf(svc)
            && (forall p :: FrontendOf(v, p) == FrontendOf(svc, p))
  {
  }

  /** The same tables, but for entries that now belong to `v` instead of `a`. */
  ghost predicate Twin(t: Tables, u: Tables, a: Service, v: Service) {
    && u.services == t.services && u.backends == t.backends && u.owner.Keys == t.owner.Keys
    && forall f :: f in t.owner ==>
         u.owner[f] == t.owner[f] || (t.owner[f] == a && u.owner[f] == v && f in Frontends(v))
  }

  ghost predicate Twins(x: Trace, y: Trace, a: Service, v: Service) {
    |x| == |y| && forall i :: 0 <= i < |x| ==> Twin(x[i], y[i], a, v)
  }

  ghost predicate TwinWrite(w: Write, w': Write, a: Service, v: Service) {
    || (w == w' && !w.PutEntry?)
    || (w.PutEntry? && w.writer == a && w' == w.(writer := v) && w.frontend in Frontends(v))
  }

  ghost predicate TwinWrites(ws: seq<Write>, ws': seq<Write>, a: Service, v: Service) {
    |ws| == |ws'| && forall i :: 0 <= i < |ws| ==> TwinWrite(ws[i], ws'[i], a, v)
  }

  lemma {:induction false} TwinsPerform(x: Trace, y: Trace, ws: seq<Write>, ws': seq<Write>, a: Service, v: Service)
    requires Twins(x, y, a, v) && TwinWrites(ws, ws', a, v)
    ensures Twins(Perform(x, ws).trace, Perform(y, ws').trace, a, v)
    ensures Perform(x, ws).done <==> Perform(y, ws').done
  {
    if ws != [] {
      var n := |ws| - 1;
      assert forall i :: 0 <= i < n ==> ws[..n][i] == ws[i] && ws'[..n][i] == ws'[i];
      TwinsPerform(x, y, ws[..n], ws'[..n], a, v);
      TwinsStep(Perform(x, ws[..n]).trace, Perform(y, ws'[..n]).trace, ws[n], ws'[n], a, v);
    }
  }

  lemma TwinsStep(x: Trace, y: Trace, w: Write, w': Write, a: Service, v: Service)
    requires Twins(x, y, a, v) && TwinWrite(w, w', a, v)
    ensures Twins(x + [Apply(Last(x), w)], y + [Apply(Last(y), w')], a, v)
    ensures Succeeds(Last(x), w) <==> Succeeds(Last(y), w')
  {
    assert Twin(x[|x| - 1], y[|y| - 1], a, v);
    TwinApply(Last(x), Last(y), w, w', a, v);
  }

  lemma TwinApply(t: Tables, u: Tables, w: Write, w': Write, a: Service, v: Service)
    requires Twin(t, u, a, v) && TwinWrite(w, w', a, v)
    ensures Twin(Apply(t, w), Apply(u, w'), a, v)
    ensures Succeeds(t, w) <==> Succeeds(u, w')
  {
  }

  lemma {:induction false} CutSlots(a: Service, v: Service, p: Port, n: nat)
    requires n <= |a.endpoints| < 0x1_0000 && v.id == a.id && v.endpoints == a.endpoints
    ensures PutSlots(v, p, n) == PutSlots(a, p, n)
    ensures forall w :: w in PutSlots(a, p, n) ==> w.PutBackend?
  {
    if n > 0 { CutSlots(a, v, p, n - 1); }
  }

  lemma {:induction false} TwinAppends(a: Service, v: Service, r: seq<Port>)
    requires |a.endpoints| < 0x1_0000 && v == a.(ports := v.ports) && forall p :: p in r ==> p in v.ports
    ensures TwinWrites(AppendWrites(a, r), AppendWrites(v, r), a, v)
  {
    if r != [] {
      var init, p := r[..|r| - 1], r[|r| - 1];
      TwinAppends(a, v, init);
      TwinVisit(a, v, p);
    }
  }

  lemma TwinVisit(a: Service, v: Service, p: Port)
    requires |a.endpoints| < 0x1_0000 && v == a.(ports := v.ports) && p in v.ports
    ensures TwinWrites(AppendPort(a, p), AppendPort(v, p), a, v)
  {
    CutSlots(a, v, p, |a.endpoints|);
    assert FrontendOf(v, p) == FrontendOf(a, p) && FrontendOf(v, p) in Frontends(v);
    var ws, ws', slots := AppendPort(a, p), AppendPort(v, p), PutSlots(a, p, |a.endpoints|);
    forall i | 0 <= i < |ws| ensures TwinWrite(ws[i], ws'[i], a, v) {
      if i > 0 { assert ws[i] == slots[i - 1] == ws'[i] && slots[i - 1] in slots; }
    }
  }

  /** At a frontend it has, the cut service offers what the whole one does. */
  lemma CutOffers(a: Service, r: seq<Port>, f: Frontend, draw: U32, b: Backend)
    requires WellFormed(a) && (forall p :: p in r ==> p in a.ports) && f in Frontends(Cut(a, r))
    ensures Offers(a, f, draw, b) <==> Offers(Cut(a, r), f, draw, b)
  {
    var v := Cut(a, r);
    var p :| p in v.ports && FrontendOf(v, p) == f;
    assert p in a.ports && FrontendOf(a, p) == f;
    if Offers(a, f, draw, b) {
      var q :| q in a.ports && FrontendOf(a, q) == f &&
               b == Backend(a.endpoints[Remainder(draw, |a.endpoints|)], ByteSwap(q.targetPort));
      assert q == p;
      assert b == Backend(v.endpoints[Remainder(draw, |v.endpoints|)], ByteSwap(p.targetPort));
    }
    if Offers(v, f, draw, b) {
      var q :| q in v.ports && FrontendOf(v, q) == f &&
               b == Backend(v.endpoints[Remainder(draw, |v.endpoints|)], ByteSwap(q.targetPort));
      assert q in a.ports && FrontendOf(a, q) == f;
    }
  }

  lemma TwinRead(t: Tables, t': Tables, u: Tables, u': Tables, a: Service, r: seq<Port>, dst: Dest, draw: U32)
    requires WellFormed(a) && forall p :: p in r ==> p in a.ports
    requires Twin(t, u, a, Cut(a, r)) && Twin(t', u', a, Cut(a, r))
    ensures SafeRead(t, t', dst, draw) <==> SafeRead(u, u', dst, draw)
  {
    var f := KeyOf(dst);
    assert Choose(t, t', dst, draw) == Choose(u, u', dst, draw);
    if Choose(t, t', dst, draw).Some? && f in t.owner && u.owner[f] != t.owner[f] {
      CutOffers(a, r, f, draw, Choose(t, t', dst, draw).value);
    }
  }

  lemma TwinsSafe(x: Trace, y: Trace, a: Service, r: seq<Port>)
    requires WellFormed(a) && (forall p :: p in r ==> p in a.ports) && Twins(x, y, a, Cut(a, r))
    ensures Safe(x) <==> Safe(y)
  {
    forall i, j | 0 <= i <= j < |x| ensures SafePair(x[i], x[j]) <==> SafePair(y[i], y[j]) {
      forall dst, draw ensures SafeRead(x[i], x[j], dst, draw) <==> SafeRead(y[i], y[j], dst, draw) {
        TwinRead(x[i], x[j], y[i], y[j], a, r, dst, draw);
      }
    }
  }

  /** An append and the append of the cut service write twin histories. */
  lemma CutAppend(start: Trace, a: Service, order: seq<Port>)
    requires WithinCapacity(Last(start)) && |a.endpoints| < 0x1_0000 && forall p :: p in order ==> p in a.ports
    ensures var r := Reached(Last(start), a, order);
            && Twins(Perform(start, AppendWrites(a, order)).trace, Perform(start, AppendWrites(Cut(a, r), r)).trace,
                     a, Cut(a, r))
            && (Perform(start, AppendWrites(Cut(a, r), r)).done <==> r == [] || SlotsFit(Last(start), a))
  {
    var t := Last(start);
    var r := Reached(t, a, order);
    StopsThere(start, a, order);
    TwinAppends(a, Cut(a, r), r);
    TwinsPerform(start, start, AppendWrites(a, r), AppendWrites(Cut(a, r), r), a, Cut(a, r));
    AppendDoneIff(start, a, r);
    ReachedGoesIn(t, a, order);
  }

  // ---------------------------------------------------------------------------
  // The run cut down to what it carried out.

  /** What is left of an operation: nothing if its delete is refused, else the service at the ports reached. */
  function CarriedOut(code: Code, s: State, op: Op): seq<Op>
    requires Fitting(s) && Fresh(op)
  {
    match op
    case DeleteOp(key, gone) => if Delete(code, s, key, gone).crashed then [] else [op]
    case UpdateOp(svc, gone, order) =>
      var d := BeforeAppend(code, s, svc, gone);
      if d.crashed then []
      else
        var r := Reached(d.Now(), Assigned(d.used, svc), order);
        [UpdateOp(Cut(svc, r), gone, r)]
  }

  /** The operations of a run up to the one that panics, and what is left of that one. */
  function Effective(code: Code, ops: seq<Op>): seq<Op>
    requires FreshOps(ops)
  {
    if ops == [] then []
    else
      FreshInit(ops);
      var init := ops[..|ops| - 1];
      var s := Run(code, init);
      if s.crashed then Effective(code, init) else init + CarriedOut(code, s, ops[|ops| - 1])
  }

  lemma DeleteCapacity(code: Code, s: State, key: string, gone: seq<Port>)
    requires Fitting(s) && WithinCapacity(s.Now())
    ensures WithinCapacity(Delete(code, s, key, gone).Now())
  {
    if key in s.services { PerformCapacity(s.trace, DeleteWrites(code, s.services[key], gone)); }
  }

  lemma {:induction false} RunCapacity(code: Code, ops: seq<Op>)
    requires FreshOps(ops)
    ensures WithinCapacity(Run(code, ops).Now())
  {
    if ops != [] {
      FreshInit(ops);
      var s := Run(code, ops[..|ops| - 1]);
      RunCapacity(code, ops[..|ops| - 1]);
      if !s.crashed {
        match ops[|ops| - 1]
        case DeleteOp(key, gone) => DeleteCapacity(code, s, key, gone);
        case UpdateOp(svc, gone, order) =>
          var d := BeforeAppend(code, s, svc, gone);
          UpdateInTwo(code, s, svc, gone, order);
          if svc.Key() in s.services { DeleteCapacity(code, s, s.services[svc.Key()].Key(), gone); }
          PerformCapacity(d.trace, AppendWrites(Assigned(d.used, svc), order));
      }
    }
  }

  /** One more operation after a run. */
  lemma RunMore(code: Code, ops: seq<Op>, op: Op)
    requires FreshOps(ops) && Fresh(op) && RunFits(code, ops) && !Run(code, ops).crashed
    ensures FreshOps(ops + [op]) && Run(code, ops + [op]) == Step(code, Run(code, ops), op)
    ensures RunFits(code, ops + [op]) <==> OrdersFit(Run(code, ops), op)
    ensures Updates(ops + [op]) == Updates(ops) + (if op.UpdateOp? then 1 else 0)
  {
    var more := ops + [op];
    assert more[..|more| - 1] == ops;
  }

  /** An order's first ports, once each. */
  lemma EnumeratesPrefix(order: seq<Port>, ports: set<Port>, r: seq<Port>)
    requires Enumerates(order, ports) && r <= order
    ensures Enumerates(r, set p | p in r) && forall p :: p in r ==> p in ports
  {
    forall p | p in r ensures p in ports { assert p in order; }
    forall i, j | 0 <= i < j < |r| ensures r[i] != r[j] { assert order[i] != order[j]; }
  }

  /** The state in which the last update of a run appends, and what its append reaches there. */
  ghost predicate Appends(code: Code, ops: seq<Op>, svc: Service, gone: seq<Port>, order: seq<Port>) {
    && FreshOps(ops) && RunFits(code, ops) && !Run(code, ops).crashed
    && Fresh(UpdateOp(svc, gone, order)) && OrdersFit(Run(code, ops), UpdateOp(svc, gone, order))
    && !BeforeAppend(code, Run(code, ops), svc, gone).crashed
  }

  lemma BeforeAppendCapacity(code: Code, ops: seq<Op>, svc: Service, gone: seq<Port>)
    requires FreshOps(ops)
    ensures WithinCapacity(BeforeAppend(code, Run(code, ops), svc, gone).Now())
  {
    var s := Run(code, ops);
    RunCapacity(code, ops);
    if svc.Key() in s.services { DeleteCapacity(code, s, s.services[svc.Key()].Key(), gone); }
  }

  /** The last update and what is left of it: twin histories, and the latter panics only for want of slots. */
  lemma CutUpdate(code: Code, ops: seq<Op>, svc: Service, gone: seq<Port>, order: seq<Port>)
    requires Appends(code, ops, svc, gone, order)
    ensures var s, d := Run(code, ops), BeforeAppend(code, Run(code, ops), svc, gone);
            var a := Assigned(d.used, svc);
            var r := Reached(d.Now(), a, order);
            var v := UpdateOp(Cut(svc, r), gone, r);
            && a == svc.(id := a.id) && WellFormed(a) && (forall p :: p in r ==> p in a.ports)
            && Fresh(v) && OrdersFit(s, v)
            && Twins(Step(code, s, UpdateOp(svc, gone, order)).trace, Step(code, s, v).trace, a, Cut(a, r))
            && (Step(code, s, v).crashed <==> r != [] && !SlotsFit(d.Now(), a))
            && Step(code, s, v).pool == s.pool + {Cut(a, r)}
  {
    var s, d := Run(code, ops), BeforeAppend(code, Run(code, ops), svc, gone);
    var a := Assigned(d.used, svc);
    var r := Reached(d.Now(), a, order);
    AssignedKeeps(d.used, svc);
    EnumeratesPrefix(order, svc.ports, r);
    CutKeeps(svc, r);
    BeforeAppendCapacity(code, ops, svc, gone);
    assert forall p :: p in order ==> p in a.ports;
    CutAppend(d.trace, a, order);
    UpdateInTwo(code, s, svc, gone, order);
    UpdateInTwo(code, s, Cut(svc, r), gone, r);
    assert Assigned(d.used, Cut(svc, r)) == Cut(a, r);
  }

  // ---------------------------------------------------------------------------
  // Exact safety for every run.

  /** As written the slots always fit: every key has id 1 and a slot of at least 1. */
  lemma WrittenSlotsFit(ops: seq<Op>, svc: Service, gone: seq<Port>, order: seq<Port>)
    requires Appends(Written, ops, svc, gone, order)
    ensures var d := BeforeAppend(Written, Run(Written, ops), svc, gone);
            SlotsFit(d.Now(), Assigned(d.used, svc))
  {
    var s, d := Run(Written, ops), BeforeAppend(Written, Run(Written, ops), svc, gone);
    RunHistory(Written, ops);
    WrittenRunIds(ops);
    UpdateInTwo(Written, s, svc, gone, order);
    WrittenAppendIds(s, svc, order);
    if svc.Key() in s.services { DeleteHistory(Written, s, s.services[svc.Key()].Key(), gone); }
    assert HistoryInv(d);
    OneIdSlots(d.Now(), d.pool, Assigned(d.used, svc));
  }

  lemma OneIdSlots(t: Tables, pool: set<Service>, a: Service)
    requires CutInv(t, pool) && PoolWellFormed(pool) && |a.endpoints| < 0x1_0000
    requires forall b :: b in pool ==> b.id == a.id
    ensures SlotsFit(t, a)
  {
    var block := Block(a, 1, 0xFFFF);
    forall k | k in t.backends ensures k in block {
      assert SlotFrom(pool, k, t.backends[k]);
      var b :| b in pool && OwnSlot(b, k, t.backends[k]);
      assert WellFormed(b);
    }
    BlockSize(a, 1, 0xFFFF);
    SubsetSize(t.backends.Keys + Block(a, 1, |a.endpoints|), block);
  }

  lemma SafePrefix(x: Trace, y: Trace)
    requires x <= y && Safe(y)
    ensures Safe(x)
  {
    forall i, j | 0 <= i <= j < |x| ensures SafePair(x[i], x[j]) {
      assert x[i] == y[i] && x[j] == y[j];
    }
  }

  /** A run that extends one that went through, without spoiling coherence, is safe exactly when it is coherent. */
  lemma GrownSafeIff(code: Code, ops: seq<Op>, more: seq<Op>)
    requires FreshOps(ops) && RunFits(code, ops) && !Run(code, ops).crashed
    requires FreshOps(more) && RunFits(code, more) && Run(code, ops).trace <= Run(code, more).trace
    requires Coherent(Run(code, ops).pool) ==> Coherent(Run(code, more).pool)
    ensures Safe(Run(code, more).trace) <==> Coherent(Run(code, more).pool)
  {
    if Coherent(Run(code, more).pool) { CoherentSafe(code, more); }
    if Safe(Run(code, more).trace) {
      SafePrefix(Run(code, ops).trace, Run(code, more).trace);
      RunSafeIff(code, ops);
    }
  }

  /** A refused delete adds no service. */
  lemma RefusedAddsNothing(code: Code, s: State, op: Op)
    requires Fitting(s) && Fresh(op) && !s.crashed && CarriedOut(code, s, op) == []
    ensures Step(code, s, op).pool == s.pool && s.trace <= Step(code, s, op).trace
  {
    match op
    case DeleteOp(key, gone) => DeleteGrows(code, s, key, gone);
    case UpdateOp(svc, gone, order) => UpdateInTwo(code, s, svc, gone, order);
  }

  lemma RefusedSafeIff(code: Code, ops: seq<Op>, op: Op)
    requires FreshOps(ops) && Fresh(op) && RunFits(code, ops) && !Run(code, ops).crashed
    requires OrdersFit(Run(code, ops), op) && CarriedOut(code, Run(code, ops), op) == []
    ensures FreshOps(ops + [op]) && (Safe(Run(code, ops + [op]).trace) <==> Coherent(Run(code, ops).pool))
  {
    RunMore(code, ops, op);
    RefusedAddsNothing(code, Run(code, ops), op);
    GrownSafeIff(code, ops, ops + [op]);
  }

  /** A service cut to one port, under an id of its own, agrees with all others. */
  lemma CutShortCoherent(ops: seq<Op>, e: Op)
    requires FreshOps(ops) && Fresh(e) && RunFits(Repaired, ops) && !Run(Repaired, ops).crashed
    requires Updates(ops) + 1 < ID_LIMIT && e.UpdateOp? && |e.svc.ports| <= 1
    requires Coherent(Run(Repaired, ops).pool)
    ensures FreshOps(ops + [e]) && Coherent(Run(Repaired, ops + [e]).pool)
  {
    RunMore(Repaired, ops, e);
    PoolUniform(ops);
    OneIsShared(e.svc);
    forall op | op in ops + [e] && op.UpdateOp? ensures Uniform(op.svc) {
      if op != e { assert op in ops; }
    }
    UniformPool(ops + [e]);
  }

  lemma OneIsShared(svc: Service)
    requires |svc.ports| <= 1
    ensures SharedTarget(svc)
  {
    forall p, q | p in svc.ports && q in svc.ports ensures p == q {
      SubsetSize({p, q}, svc.ports);
    }
  }

  /** The last update is safe exactly when what is left of it is, together with what came before. */
  lemma UpdateSafeIff(code: Code, ops: seq<Op>, svc: Service, gone: seq<Port>, order: seq<Port>)
    requires Appends(code, ops, svc, gone, order) && (code.Repaired? ==> Updates(ops) + 1 < ID_LIMIT)
    ensures var op := UpdateOp(svc, gone, order);
            var e := ops + CarriedOut(code, Run(code, ops), op);
            && FreshOps(ops + [op]) && FreshOps(e)
            && (Safe(Run(code, ops + [op]).trace) <==> Coherent(Run(code, e).pool))
  {
    var s, d := Run(code, ops), BeforeAppend(code, Run(code, ops), svc, gone);
    var a := Assigned(d.used, svc);
    var r := Reached(d.Now(), a, order);
    var op, v := UpdateOp(svc, gone, order), UpdateOp(Cut(svc, r), gone, r);
    CutUpdate(code, ops, svc, gone, order);
    RunMore(code, ops, op);
    RunMore(code, ops, v);
    TwinsSafe(Step(code, s, op).trace, Step(code, s, v).trace, a, r);
    LeftoverPorts(code, ops, svc, gone, order);
    LeftoverSafeIff(code, ops, v);
  }

  /** What is left of an update panics only when repaired and cut to one port. */
  lemma LeftoverPorts(code: Code, ops: seq<Op>, svc: Service, gone: seq<Port>, order: seq<Port>)
    requires Appends(code, ops, svc, gone, order)
    ensures var d := BeforeAppend(code, Run(code, ops), svc, gone);
            var r := Reached(d.Now(), Assigned(d.used, svc), order);
            r != [] && !SlotsFit(d.Now(), Assigned(d.used, svc)) ==> code.Repaired? && |Cut(svc, r).ports| <= 1
  {
    var d := BeforeAppend(code, Run(code, ops), svc, gone);
    var r := Reached(d.Now(), Assigned(d.used, svc), order);
    if code.Written? { WrittenSlotsFit(ops, svc, gone, order); }
    if |r| <= 1 { CutToOne(svc, r); }
  }

  lemma CutToOne(svc: Service, r: seq<Port>)
    requires |r| <= 1
    ensures |Cut(svc, r).ports| <= 1
  {
    assert Cut(svc, r).ports == if r == [] then {} else {r[0]};
  }

  lemma LeftoverSafeIff(code: Code, ops: seq<Op>, v: Op)
    requires FreshOps(ops) && Fresh(v) && RunFits(code, ops) && !Run(code, ops).crashed && OrdersFit(Run(code, ops), v)
    requires Step(code, Run(code, ops), v).crashed ==>
               code.Repaired? && Updates(ops) + 1 < ID_LIMIT && v.UpdateOp? && |v.svc.ports| <= 1
    ensures FreshOps(ops + [v]) && (Safe(Run(code, ops + [v]).trace) <==> Coherent(Run(code, ops + [v]).pool))
  {
    RunMore(code, ops, v);
    if Step(code, Run(code, ops), v).crashed {
      CutShort(ops, v);
    } else {
      RunSafeIff(code, ops + [v]);
    }
  }

  lemma CutShort(ops: seq<Op>, v: Op)
    requires FreshOps(ops) && Fresh(v) && RunFits(Repaired, ops) && !Run(Repaired, ops).crashed
    requires Updates(ops) + 1 < ID_LIMIT && v.UpdateOp? && |v.svc.ports| <= 1 && OrdersFit(Run(Repaired, ops), v)
    ensures FreshOps(ops + [v])
    ensures Safe(Run(Repaired, ops + [v]).trace) <==> Coherent(Run(Repaired, ops + [v]).pool)
  {
    var s := Run(Repaired, ops);
    RunMore(Repaired, ops, v);
    assert s.trace <= Run(Repaired, ops + [v]).trace by { StepGrows(Repaired, s, v); }
    if Coherent(s.pool) { CutShortCoherent(ops, v); }
    GrownSafeIff(Repaired, ops, ops + [v]);
  }

  /** Either code, every run: safe at any two points exactly when the services it carried out agree under one id. */
  lemma {:induction false} EveryRunSafeIff(code: Code, ops: seq<Op>)
    requires FreshOps(ops) && RunFits(code, ops) && (code.Repaired? ==> Updates(ops) < ID_LIMIT)
    ensures FreshOps(Effective(code, ops))
    ensures Safe(Run(code, ops).trace) <==> Coherent(Run(code, Effective(code, ops)).pool)
  {
    if ops == [] {
      RunSafeIff(code, ops);
    } else {
      FreshInit(ops);
      var init, op := ops[..|ops| - 1], ops[|ops| - 1];
      var s := Run(code, init);
      assert ops == init + [op];
      UpdatesInit(ops);
      if s.crashed {
        EveryRunSafeIff(code, init);
      } else if CarriedOut(code, s, op) == [] {
        RefusedSafeIff(code, init, op);
        assert init + [] == init;
      } else if op.DeleteOp? {
        RunSafeIff(code, ops);
      } else {
        UpdateSafeIff(code, init, op.svc, op.gone, op.order);
      }
    }
  }

  /** As written, what is left of a run goes through. */
  lemma {:induction false} EffectiveGoesThrough(ops: seq<Op>)
    requires FreshOps(ops) && RunFits(Written, ops)
    ensures FreshOps(Effective(Written, ops)) && !Run(Written, Effective(Written, ops)).crashed
  {
    if ops != [] {
      FreshInit(ops);
      var init, op := ops[..|ops| - 1], ops[|ops| - 1];
      var s := Run(Written, init);
      if s.crashed {
        EffectiveGoesThrough(init);
      } else if CarriedOut(Written, s, op) == [] {
        assert init + [] == init;
      } else if op.DeleteOp? {
        assert init + [op] == ops;
      } else {
        CutUpdate(Written, init, op.svc, op.gone, op.order);
        WrittenSlotsFit(init, op.svc, op.gone, op.order);
        RunMore(Written, init, CarriedOut(Written, s, op)[0]);
      }
    }
  }

  /**
    As written, every run, whether it goes through, is refused a delete or fills the map: connects
    are safe at any two points exactly when all services it carried out agree slot by slot.
   */
  lemma WrittenEveryRunSafeIff(ops: seq<Op>)
    requires FreshOps(ops) && RunFits(Written, ops)
    ensures Safe(Run(Written, ops).trace) <==> AllAgree(Effective(Written, ops))
  {
    EveryRunSafeIff(Written, ops);
    EffectiveGoesThrough(ops);
    var e := Effective(Written, ops);
    if AllAgree(e) { AgreeingPool(e); }
    if Coherent(Run(Written, e).pool) { PoolAgrees(e); }
  }

  /** The panic of an update or delete that meets a live service: what came before decides. */
  lemma WrittenRefusedSafeIff(ops: seq<Op>, op: Op)
    requires FreshOps(ops) && Fresh(op) && RunFits(Written, ops) && !Run(Written, ops).crashed
    requires OrdersFit(Run(Written, ops), op) && CarriedOut(Written, Run(Written, ops), op) == []
    ensures FreshOps(ops + [op]) && Run(Written, ops + [op]).crashed
    ensures Safe(Run(Written, ops + [op]).trace) <==> AllAgree(ops)
  {
    RunMore(Written, ops, op);
    RefusedSafeIff(Written, ops, op);
    RunSafeIff(Written, ops);
    WrittenSafeIff(ops);
  }

  /** Repaired, every run: exactly when each service it carried out has one target port. */
  lemma RepairedEveryRunSafeIff(ops: seq<Op>)
    requires FreshOps(ops) && RunFits(Repaired, ops) && Updates(ops) < ID_LIMIT
    ensures Safe(Run(Repaired, ops).trace) <==> AllUniform(Effective(Repaired, ops))
  {
    EveryRunSafeIff(Repaired, ops);
    EffectiveUniform(ops);
  }

  lemma {:induction false} EffectiveUniform(ops: seq<Op>)
    requires FreshOps(ops) && RunFits(Repaired, ops) && Updates(ops) < ID_LIMIT
    ensures FreshOps(Effective(Repaired, ops))
    ensures Coherent(Run(Repaired, Effective(Repaired, ops)).pool) <==> AllUniform(Effective(Repaired, ops))
  {
    if ops != [] {
      FreshInit(ops);
      UpdatesInit(ops);
      var init, op := ops[..|ops| - 1], ops[|ops| - 1];
      var s := Run(Repaired, init);
      if s.crashed {
        EffectiveUniform(init);
      } else if CarriedOut(Repaired, s, op) == [] {
        assert init + [] == init;
        UniformIff(init);
      } else if op.DeleteOp? {
        assert init + [op] == ops;
        UniformIff(ops);
      } else {
        UpdateUniform(init, op.svc, op.gone, op.order);
      }
    }
  }

  lemma UniformIff(ops: seq<Op>)
    requires FreshOps(ops) && Updates(ops) < ID_LIMIT && !Run(Repaired, ops).crashed
    ensures Coherent(Run(Repaired, ops).pool) <==> AllUniform(ops)
  {
    if AllUniform(ops) { UniformPool(ops); }
    if Coherent(Run(Repaired, ops).pool) { PoolUniform(ops); }
  }

  lemma UpdateUniform(ops: seq<Op>, svc: Service, gone: seq<Port>, order: seq<Port>)
    requires Appends(Repaired, ops, svc, gone, order) && Updates(ops) + 1 < ID_LIMIT
    ensures var e := ops + CarriedOut(Repaired, Run(Repaired, ops), UpdateOp(svc, gone, order));
            FreshOps(e) && (Coherent(Run(Repaired, e).pool) <==> AllUniform(e))
  {
    CutUpdate(Repaired, ops, svc, gone, order);
    LeftoverPorts(Repaired, ops, svc, gone, order);
    LeftoverUniform(ops, CarriedOut(Repaired, Run(Repaired, ops), UpdateOp(svc, gone, order))[0]);
  }

  lemma LeftoverUniform(ops: seq<Op>, v: Op)
    requires FreshOps(ops) && Fresh(v) && RunFits(Repaired, ops) && !Run(Repaired, ops).crashed
    requires Updates(ops) + 1 < ID_LIMIT && v.UpdateOp?
    requires Step(Repaired, Run(Repaired, ops), v).crashed ==> |v.svc.ports| <= 1
    ensures FreshOps(ops + [v]) && (Coherent(Run(Repaired, ops + [v]).pool) <==> AllUniform(ops + [v]))
  {
    RunMore(Repaired, ops, v);
    if Step(Repaired, Run(Repaired, ops), v).crashed {
      StepGrows(Repaired, Run(Repaired, ops), v);
      OneIsShared(v.svc);
      UniformIff(ops);
      if AllUniform(ops + [v]) { UniformPool(ops + [v]); }
      assert AllUniform(ops) ==> AllUniform(ops + [v]);
    } else {
      UniformIff(ops + [v]);
    }
  }

  /** Of a run that goes through, everything is carried out. */
  lemma {:induction false} EffectiveIsAll(code: Code, ops: seq<Op>)
    requires FreshOps(ops) && RunFits(code, ops) && !Run(code, ops).crashed
    ensures Effective(code, ops) == ops
  {
    if ops != [] {
      FreshInit(ops);
      var init, op := ops[..|ops| - 1], ops[|ops| - 1];
      var s := Run(code, init);
      assert CarriedOut(code, s, op) == [op] by { StepIsCarriedOut(code, init, op); }
      assert ops == init + [op];
    }
  }

  lemma StepIsCarriedOut(code: Code, ops: seq<Op>, op: Op)
    requires FreshOps(ops) && RunFits(code, ops) && !Run(code, ops).crashed
    requires Fresh(op) && OrdersFit(Run(code, ops), op) && !Step(code, Run(code, ops), op).crashed
    ensures CarriedOut(code, Run(code, ops), op) == [op]
  {
    if op.UpdateOp? {
      UpdateInTwo(code, Run(code, ops), op.svc, op.gone, op.order);
      WholeIsCarriedOut(code, ops, op.svc, op.gone, op.order);
    }
  }

  lemma WholeIsCarriedOut(code: Code, ops: seq<Op>, svc: Service, gone: seq<Port>, order: seq<Port>)
    requires Appends(code, ops, svc, gone, order)
    requires !Step(code, Run(code, ops), UpdateOp(svc, gone, order)).crashed
    ensures CarriedOut(code, Run(code, ops), UpdateOp(svc, gone, order)) == [UpdateOp(svc, gone, order)]
  {
    var s, d := Run(code, ops), BeforeAppend(code, Run(code, ops), svc, gone);
    UpdateInTwo(code, s, svc, gone, order);
    AssignedKeeps(d.used, svc);
    BeforeAppendCapacity(code, ops, svc, gone);
    assert forall p :: p in order ==> p in Assigned(d.used, svc).ports;
    StopsThere(d.trace, Assigned(d.used, svc), order);
    assert (set p | p in order) == svc.ports;
  }
}
