/**
  One `AppendService`, as it is written, whether it goes through or a full map cuts it short:
  what it does not touch, what a connect sees at any two points of it when the service's
  frontends and block were free, and what it leaves behind.
 */
module OneAppend {
  import opened Words
  import opened Services
  import opened Tables
  import opened DataPlane
  import opened Writes
  import opened Safety
  import opened Live
  import opened Theorems
  import opened Interrupted

  /** Whatever the tables hold under the service's frontends and in its block is its own. */
  ghost predicate OwnOnly(t: Tables, a: Service) {
    && (forall f :: f in t.services && f in Frontends(a) ==>
          f in t.owner && t.owner[f] == a && t.services[f] == EntryOf(a))
    && (forall k :: k in t.backends && IdOf(k) == a.id ==> OwnSlot(a, k, t.backends[k]))
  }

  /** Nothing of the service is there yet. */
  ghost predicate Free(t: Tables, a: Service) {
    && (forall f :: f in Frontends(a) ==> f !in t.services)
    && (forall k :: k in t.backends ==> IdOf(k) != a.id)
  }

  /** `u` differs from `t` at most under the service's own keys. */
  ghost predicate SameElsewhere(t: Tables, u: Tables, a: Service) {
    && (forall f :: f !in Frontends(a) ==>
          (f in u.services <==> f in t.services) && (f in t.services ==> u.services[f] == t.services[f]))
    && (forall k: U32 :: IdOf(k) != a.id ==>
          (k in u.backends <==> k in t.backends) && (k in t.backends ==> u.backends[k] == t.backends[k]))
  }

  ghost predicate AllSame(t: Tables, trace: Trace, a: Service) {
    forall i :: 0 <= i < |trace| ==> SameElsewhere(t, trace[i], a)
  }

  ghost predicate AllOwn(trace: Trace, a: Service) {
    forall i :: 0 <= i < |trace| ==> OwnOnly(trace[i], a)
  }

  lemma OwnWriteStaysIn(t: Tables, u: Tables, a: Service, w: Write)
    requires SameElsewhere(t, u, a) && OwnWrite(a, w)
    ensures SameElsewhere(t, Apply(u, w), a)
  {
  }

  lemma OwnWriteKeepsOwn(u: Tables, a: Service, w: Write)
    requires OwnOnly(u, a) && OwnWrite(a, w)
    ensures OwnOnly(Apply(u, w), a)
  {
  }

  lemma {:induction false} AppendStaysIn(t: Tables, start: Trace, a: Service, ws: seq<Write>)
    requires AllSame(t, start, a) && forall w :: w in ws ==> OwnWrite(a, w)
    ensures AllSame(t, Perform(start, ws).trace, a)
  {
    if ws != [] {
      var init, w := ws[..|ws| - 1], ws[|ws| - 1];
      assert w in ws && forall v :: v in init ==> v in ws;
      AppendStaysIn(t, start, a, init);
      OwnWriteStaysIn(t, Last(Perform(start, init).trace), a, w);
    }
  }

  lemma {:induction false} AppendKeepsOwn(start: Trace, a: Service, ws: seq<Write>)
    requires AllOwn(start, a) && forall w :: w in ws ==> OwnWrite(a, w)
    ensures AllOwn(Perform(start, ws).trace, a)
  {
    if ws != [] {
      var init, w := ws[..|ws| - 1], ws[|ws| - 1];
      assert w in ws && forall v :: v in init ==> v in ws;
      AppendKeepsOwn(start, a, init);
      OwnWriteKeepsOwn(Last(Perform(start, init).trace), a, w);
    }
  }

  /** The states of one append of `a`, visiting its ports in the given order. */
  ghost function AppendTrace(t: Tables, a: Service, order: seq<Port>): Performed
    requires |a.endpoints| < 0x1_0000
  {
    Perform([t], AppendWrites(a, order))
  }

  lemma AllOwnWrites(a: Service, order: seq<Port>)
    requires |a.endpoints| < 0x1_0000 && forall p :: p in order ==> p in a.ports
    ensures forall w :: w in AppendWrites(a, order) ==> OwnWrite(a, w)
  {
    forall w | w in AppendWrites(a, order) ensures OwnWrite(a, w) { AppendWritesOwn(a, order, w); }
  }

  /** Whatever the tables held before: at no point has an append touched another's frontend or block. */
  lemma AppendFrame(t: Tables, a: Service, order: seq<Port>, i: nat)
    requires |a.endpoints| < 0x1_0000 && Enumerates(order, a.ports) && i < |AppendTrace(t, a, order).trace|
    ensures SameElsewhere(t, AppendTrace(t, a, order).trace[i], a)
  {
    AllOwnWrites(a, order);
    AppendStaysIn(t, [t], a, AppendWrites(a, order));
  }

  /** Into free keys: at every point the append's own keys hold only what it wrote. */
  lemma AppendOwn(t: Tables, a: Service, order: seq<Port>, i: nat)
    requires Free(t, a) && |a.endpoints| < 0x1_0000 && Enumerates(order, a.ports)
    requires i < |AppendTrace(t, a, order).trace|
    ensures OwnOnly(AppendTrace(t, a, order).trace[i], a)
  {
    AllOwnWrites(a, order);
    assert AllOwn([t], a);
    AppendKeepsOwn([t], a, AppendWrites(a, order));
  }

  /** Connects to the service's own frontends are safe at any two points of the append. */
  ghost predicate OwnReadsSafe(trace: Trace, a: Service) {
    forall i, j, dst, draw :: 0 <= i <= j < |trace| && KeyOf(dst) in Frontends(a) ==>
                                SafeRead(trace[i], trace[j], dst, draw)
  }

  lemma OwnOnlyOffers(t: Tables, a: Service, p: Port, draw: U32)
    requires OwnOnly(t, a) && WellFormed(a) && Uniform(a) && p in a.ports && a.endpoints != []
    requires BackendKey(a.id, PickSlot(draw, |a.endpoints|)) in t.backends
    ensures Offers(a, FrontendOf(a, p), draw, t.backends[BackendKey(a.id, PickSlot(draw, |a.endpoints|))])
  {
    var k := BackendKey(a.id, PickSlot(draw, |a.endpoints|));
    PickSlotInRange(draw, |a.endpoints|);
    AgreeWithItself(a);
    AgreedValue(a, a, p, k, t.backends[k]);
  }

  lemma OwnOnlyRead(first: Tables, second: Tables, a: Service, p: Port, dst: Dest, draw: U32)
    requires OwnOnly(first, a) && OwnOnly(second, a) && WellFormed(a) && Uniform(a)
    requires p in a.ports && KeyOf(dst) == FrontendOf(a, p)
    ensures SafeRead(first, second, dst, draw)
  {
    var f := KeyOf(dst);
    assert f in Frontends(a);
    if f in first.services && first.services[f].count > 0 {
      if BackendKey(a.id, PickSlot(draw, |a.endpoints|)) in second.backends { OwnOnlyOffers(second, a, p, draw); }
      OfferedRead(first, second, dst, draw, a);
    }
  }

  /** With one target port an append is safe at any two of its points, even when it is cut short. */
  lemma AppendSafe(t: Tables, a: Service, order: seq<Port>)
    requires Free(t, a) && WellFormed(a) && Enumerates(order, a.ports) && Uniform(a)
    ensures OwnReadsSafe(AppendTrace(t, a, order).trace, a)
  {
    var trace := AppendTrace(t, a, order).trace;
    forall i, j, dst, draw | 0 <= i <= j < |trace| && KeyOf(dst) in Frontends(a)
      ensures SafeRead(trace[i], trace[j], dst, draw)
    {
      AppendOwn(t, a, order, i);
      AppendOwn(t, a, order, j);
      var p :| p in a.ports && FrontendOf(a, p) == KeyOf(dst);
      OwnOnlyRead(trace[i], trace[j], a, p, dst, draw);
    }
  }

  /** An append that goes through is safe at any two of its points exactly when the service has one target port. */
  lemma AppendSafeIff(t: Tables, a: Service, order: seq<Port>)
    requires Free(t, a) && WellFormed(a) && Enumerates(order, a.ports) && AppendTrace(t, a, order).done
    ensures OwnReadsSafe(AppendTrace(t, a, order).trace, a) <==> Uniform(a)
  {
    var trace := AppendTrace(t, a, order).trace;
    if Uniform(a) { AppendSafe(t, a, order); }
    if OwnReadsSafe(trace, a) && a.endpoints != [] {
      AppendEnds(t, a, order);
      forall p, q | p in a.ports && q in a.ports ensures p.targetPort == q.targetPort {
        LastStateRead(trace, a, p);
        LastStateRead(trace, a, q);
        ByteSwapInjective(p.targetPort, q.targetPort);
      }
    }
  }

  /** Any append, finished or not: safe exactly when the ports it reaches have one target port. */
  lemma AnyAppendSafeIff(t: Tables, a: Service, order: seq<Port>)
    requires Free(t, a) && WellFormed(a) && Enumerates(order, a.ports) && WithinCapacity(t)
    ensures OwnReadsSafe(AppendTrace(t, a, order).trace, a) <==> Uniform(Cut(a, Reached(t, a, order)))
  {
    var r := Reached(t, a, order);
    var v := Cut(a, r);
    EnumeratesPrefix(order, a.ports, r);
    CutKeeps(a, r);
    CutAppend([t], a, order);
    CutReads(t, a, r, AppendTrace(t, a, order).trace);
    WholeOrOnePort(t, v, r);
  }

  lemma WholeOrOnePort(t: Tables, v: Service, r: seq<Port>)
    requires Free(t, v) && WellFormed(v) && Enumerates(r, v.ports) && (AppendTrace(t, v, r).done || |r| <= 1)
    ensures OwnReadsSafe(AppendTrace(t, v, r).trace, v) <==> Uniform(v)
  {
    if AppendTrace(t, v, r).done {
      AppendSafeIff(t, v, r);
    } else {
      assert forall p :: p in v.ports ==> p in r;
      AppendSafe(t, v, r);
    }
  }

  /** Connects to the whole service see of the append what connects to the cut one see. */
  lemma CutReads(t: Tables, a: Service, r: seq<Port>, trace: Trace)
    requires Free(t, a) && WellFormed(a) && Enumerates(r, Cut(a, r).ports) && forall p :: p in r ==> p in a.ports
    requires Twins(trace, AppendTrace(t, Cut(a, r), r).trace, a, Cut(a, r))
    ensures Free(t, Cut(a, r))
    ensures OwnReadsSafe(trace, a) <==> OwnReadsSafe(AppendTrace(t, Cut(a, r), r).trace, Cut(a, r))
  {
    var v := Cut(a, r);
    var cut := AppendTrace(t, v, r).trace;
    forall f | f in Frontends(v) ensures f in Frontends(a) {
      var p :| p in v.ports && FrontendOf(v, p) == f;
      assert p in a.ports && FrontendOf(a, p) == f;
    }
    forall i, j, dst, draw | 0 <= i <= j < |trace|
      ensures SafeRead(trace[i], trace[j], dst, draw) <==> SafeRead(cut[i], cut[j], dst, draw)
      ensures KeyOf(dst) in Frontends(a) && KeyOf(dst) !in Frontends(v) ==> SafeRead(trace[i], trace[j], dst, draw)
    {
      TwinRead(trace[i], trace[j], cut[i], cut[j], a, r, dst, draw);
      AppendFrame(t, v, r, i);
    }
  }

  lemma LastStateRead(trace: Trace, a: Service, p: Port)
    requires OwnReadsSafe(trace, a) && Complete(Last(trace), a) && WellFormed(a) && p in a.ports && a.endpoints != []
    ensures BackendKey(a.id, 1) in Last(trace).backends
    ensures Last(trace).backends[BackendKey(a.id, 1)] == Backend(a.endpoints[0], ByteSwap(p.targetPort))
  {
    var dst := DestFor(FrontendOf(a, p));
    assert KeyOf(dst) in Frontends(a);
    assert SafeRead(trace[|trace| - 1], trace[|trace| - 1], dst, 0);
    CompleteSlot(Last(trace), a, 0);
    CompleteRead(Last(trace), Last(trace), a, p, 0);
  }

  lemma AppendEnds(t: Tables, a: Service, order: seq<Port>)
    requires WellFormed(a) && Enumerates(order, a.ports) && AppendTrace(t, a, order).done
    ensures Last(AppendTrace(t, a, order).trace) == Appended(t, a, order)
    ensures Complete(Appended(t, a, order), a)
  {
    PerformEnds([t], AppendWrites(a, order));
    AppendEffect(t, a, order);
    AppendCompletes(t, a, order);
  }

  /**
    After an append of a service with one target port every draw on any of its frontends is
    rewritten to the endpoint it selects and that port, byte-swapped, and every endpoint is
    selected by some draw.
   */
  lemma AppendedServes(t: Tables, a: Service, order: seq<Port>, p: Port, dst: Dest, draw: U32, i: nat)
    requires WellFormed(a) && Enumerates(order, a.ports) && SharedTarget(a) && p in a.ports
    requires KeyOf(dst) == FrontendOf(a, p) && (dst.kind == SOCK_STREAM || dst.kind == SOCK_DGRAM)
    requires i < |a.endpoints|
    ensures var u := Appended(t, a, order);
            && Choose(u, u, dst, draw) ==
               Some(Backend(a.endpoints[Remainder(draw, |a.endpoints|)], ByteSwap(p.targetPort)))
            && Choose(u, u, dst, i) == Some(Backend(a.endpoints[i], ByteSwap(p.targetPort)))
  {
    var u := Appended(t, a, order);
    AppendCompletes(t, a, order);
    forall slot: U16 | 1 <= slot <= |a.endpoints|
      ensures BackendKey(a.id, slot) in u.backends && u.backends[BackendKey(a.id, slot)] == SlotValue(a, p, slot)
    {
      AppendedBackends(t, a, order, BackendKey(a.id, slot));
      assert p in order && order[|order| - 1] in order;
    }
    ChooseStored(u, a, p, dst, draw);
    ChooseStored(u, a, p, dst, i);
    OfferSelects(a, p, i);
  }
}
