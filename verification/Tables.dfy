/**
  The two kernel hash maps shared by the control plane and the data plane, as values, and the
  single-key writes the control plane performs on them.
 */
module Tables {
  import opened Words
  import opened Services

  /** `max_entries` of both maps. */
  const CAPACITY := 65536

  /** Value of the service map (`Service4Value`, `struct lb4_service`). */
  datatype Entry = Entry(id: U16, count: U16)

  /** Value of the backend map (`Endpoint4Value`, `struct lb4_backend`); protocol and padding are always 0. */
  datatype Backend = Backend(address: U32, port: U16)

  /** One state of the two maps. `owner` is a history variable: the service that last wrote each frontend. */
  datatype Tables = Tables(services: map<Frontend, Entry>, backends: map<U32, Backend>,
                           owner: map<Frontend, Service>)

  datatype Write =
    | PutEntry(frontend: Frontend, entry: Entry, writer: Service)
    | DropEntry(frontend: Frontend)
    | PutBackend(key: U32, backend: Backend)
    | DropBackend(key: U32)

  const EMPTY := Tables(map[], map[], map[])

  function Apply(t: Tables, w: Write): Tables {
    match w
    case PutEntry(f, e, writer) => t.(services := t.services[f := e], owner := t.owner[f := writer])
    case DropEntry(f) => t.(services := t.services - {f})
    case PutBackend(k, b) => t.(backends := t.backends[k := b])
    case DropBackend(k) => t.(backends := t.backends - {k})
  }

  /** The kernel refuses to delete an absent key and to add a new key to a full map. */
  predicate Succeeds(t: Tables, w: Write) {
    match w
    case PutEntry(f, _, _) => f in t.services || |t.services| < CAPACITY
    case DropEntry(f) => f in t.services
    case PutBackend(k, _) => k in t.backends || |t.backends| < CAPACITY
    case DropBackend(k) => k in t.backends
  }

  function ApplyAll(t: Tables, ws: seq<Write>): Tables {
    if ws == [] then t else Apply(ApplyAll(t, ws[..|ws| - 1]), ws[|ws| - 1])
  }

  /** A non-empty history of table states, oldest first. */
  type Trace = trace: seq<Tables> | trace != [] witness [EMPTY]

  function Last(trace: Trace): Tables { trace[|trace| - 1] }

  datatype Performed = Performed(trace: Trace, done: bool)

  /** Perform writes one by one, recording every intermediate state, up to the first one the kernel refuses. */
  function Perform(trace: Trace, ws: seq<Write>): Performed {
    if ws == [] then Performed(trace, true)
    else
      var r := Perform(trace, ws[..|ws| - 1]);
      var w := ws[|ws| - 1];
      if !r.done then r
      else if Succeeds(Last(r.trace), w) then Performed(r.trace + [Apply(Last(r.trace), w)], true)
      else Performed(r.trace, false)
  }

  lemma PerformMore(trace: Trace, ws: seq<Write>, w: Write)
    ensures Perform(trace, ws + [w]) ==
            var r := Perform(trace, ws);
            if !r.done then r
            else if Succeeds(Last(r.trace), w) then Performed(r.trace + [Apply(Last(r.trace), w)], true)
            else Performed(r.trace, false)
  {
    assert (ws + [w])[..|ws|] == ws;
  }

  lemma {:induction false} PerformConcat(trace: Trace, ws: seq<Write>, vs: seq<Write>)
    ensures var r := Perform(trace, ws);
            Perform(trace, ws + vs) == if r.done then Perform(r.trace, vs) else r
    decreases |vs|
  {
    if vs == [] {
      assert ws + vs == ws;
    } else {
      var init, w := vs[..|vs| - 1], vs[|vs| - 1];
      assert vs == init + [w] && ws + vs == (ws + init) + [w];
      PerformConcat(trace, ws, init);
      PerformMore(trace, ws + init, w);
      if Perform(trace, ws).done {
        PerformMore(Perform(trace, ws).trace, init, w);
      }
    }
  }

  lemma {:induction false} ApplyAllConcat(t: Tables, ws: seq<Write>, vs: seq<Write>)
    ensures ApplyAll(t, ws + vs) == ApplyAll(ApplyAll(t, ws), vs)
    decreases |vs|
  {
    if vs == [] {
      assert ws + vs == ws;
    } else {
      var init := vs[..|vs| - 1];
      assert (ws + vs)[..|ws + vs| - 1] == ws + init;
      ApplyAllConcat(t, ws, init);
    }
  }

  /** A history only grows; when no write is refused it ends in the state all writes lead to. */
  lemma {:induction false} PerformEnds(trace: Trace, ws: seq<Write>)
    ensures trace <= Perform(trace, ws).trace
    ensures Perform(trace, ws).done ==> Last(Perform(trace, ws).trace) == ApplyAll(Last(trace), ws)
  {
    if ws != [] { PerformEnds(trace, ws[..|ws| - 1]); }
  }

  predicate IsPut(w: Write) { w.PutEntry? || w.PutBackend? }

  predicate OnlyPuts(ws: seq<Write>) { forall w :: w in ws ==> IsPut(w) }

  predicate WithinCapacity(t: Tables) { |t.services| <= CAPACITY && |t.backends| <= CAPACITY }

  lemma UpdateSize<K, V>(m: map<K, V>, k: K, v: V)
    ensures |m[k := v]| == if k in m then |m| else |m| + 1
    ensures m[k := v].Keys == m.Keys + {k}
  {
    var m' := m[k := v];
    assert m'.Keys == m.Keys + {k};
    assert |m'.Keys| == |m'| && |m.Keys| == |m|;
  }

  /** A batch that only puts is refused somewhere exactly when what it leads to would not fit. */
  lemma {:induction false} PutsDoneIff(trace: Trace, ws: seq<Write>)
    requires OnlyPuts(ws) && WithinCapacity(Last(trace))
    ensures Perform(trace, ws).done <==> WithinCapacity(ApplyAll(Last(trace), ws))
    ensures WithinCapacity(Last(Perform(trace, ws).trace))
  {
    if ws != [] {
      var init, w := ws[..|ws| - 1], ws[|ws| - 1];
      assert w in ws;
      PutsDoneIff(trace, init);
      PerformEnds(trace, init);
      PutFits(ApplyAll(Last(trace), init), w);
    }
  }

  /** A put never shrinks a map, and is refused exactly when its result would not fit. */
  lemma PutFits(t: Tables, w: Write)
    requires IsPut(w)
    ensures WithinCapacity(Apply(t, w)) ==> WithinCapacity(t)
    ensures WithinCapacity(t) ==> (Succeeds(t, w) <==> WithinCapacity(Apply(t, w)))
  {
    if w.PutEntry? {
      UpdateSize(t.services, w.frontend, w.entry);
    } else {
      UpdateSize(t.backends, w.key, w.backend);
    }
  }

  lemma {:induction false} PerformCapacity(trace: Trace, ws: seq<Write>)
    requires WithinCapacity(Last(trace))
    ensures WithinCapacity(Last(Perform(trace, ws).trace))
  {
    if ws != [] {
      var init, w := ws[..|ws| - 1], ws[|ws| - 1];
      PerformCapacity(trace, init);
      var done := Perform(trace, init);
      if done.done && Succeeds(Last(done.trace), w) { WriteCapacity(Last(done.trace), w); }
    }
  }

  lemma WriteCapacity(t: Tables, w: Write)
    requires WithinCapacity(t) && Succeeds(t, w)
    ensures WithinCapacity(Apply(t, w))
  {
    match w
    case PutEntry(_, _, _) => PutFits(t, w);
    case PutBackend(_, _) => PutFits(t, w);
    case DropEntry(f) => RemoveSize(t.services, f);
    case DropBackend(k) => RemoveSize(t.backends, k);
  }

  lemma RemoveSize<K, V>(m: map<K, V>, k: K)
    ensures |m - {k}| <= |m|
  {
    var m' := m - {k};
    assert m'.Keys <= m.Keys;
    assert m.Keys == m'.Keys + (m.Keys - m'.Keys);
    assert |m'.Keys| == |m'| && |m.Keys| == |m|;
  }
}
