/**
  The informers' `Process` loop, one model for the endpoint-slice and the service informer: it
  moves a batch of deltas into the indexer and tells the event handler about each. The
  converter copies an object's kept fields and blanks the original in place, so a batch that
  holds one object twice finds it blank the second time.
 */
module Informer {
  import opened Words
  import opened Text

  /** An API object: name, namespace, the fields the converter keeps and those it drops. */
  datatype Content = Content(namespace: string, name: string, kept: string, dropped: string)

  const BLANK := Content("", "", "", "")

  class ApiObject {
    var content: Content

    constructor (c: Content)
      ensures content == c
    {
      content := c;
    }
  }

  /** What a delta can hold: an object, a tombstone (perhaps without an object of the right type), anything else. */
  datatype Item = Live(obj: ApiObject) | Tombstone(key: string, last: ApiObject?) | Foreign

  datatype Kind = Sync | Added | Updated | Replaced | Deleted | Unknown

  datatype Delta = Delta(kind: Kind, item: Item)

  /** What the indexer stores and the event handler receives. */
  datatype Stored = Object(content: Content) | Gone(key: string, content': Option<Content>) | Other

  datatype Event =
    | OnAdd(obj: Stored)
    | OnUpdate(was: Stored, obj: Stored)
    | OnDelete(obj: Stored)

  /** The indexer's key function; `None` is its error. */
  function KeyOf(obj: Stored): Option<string> {
    match obj
    case Object(c) => Some(MetaKey(c.namespace, c.name))
    case Gone(key, _) => Some(key)
    case Other => None
  }

  /** Objects with slash-free namespace and name share an indexer key exactly when they share both. */
  lemma SameIndexKeyIff(a: Content, b: Content)
    requires Free(a.namespace, '/') && Free(a.name, '/') && Free(b.namespace, '/') && Free(b.name, '/')
    ensures KeyOf(Object(a)) == KeyOf(Object(b)) <==> a.namespace == b.namespace && a.name == b.name
  {
    MetaKeysEqualIff(a.namespace, a.name, b.namespace, b.name);
  }

  // ---------------------------------------------------------------------------
  // The loop on values.

  datatype Input = Input(kind: Kind, obj: Stored)

  datatype Store = Store(items: map<string, Stored>, log: seq<Event>)

  /** One delta; `None` when the indexer reports an error, which leaves everything as it was. */
  function Step(s: Store, d: Input): Option<Store> {
    if d.kind == Unknown then Some(s)
    else
      match KeyOf(d.obj)
      case None => None
      case Some(key) =>
        if d.kind == Deleted then
          Some(Store(s.items - {key}, s.log + [OnDelete(d.obj)]))
        else
          Some(Store(s.items[key := d.obj],
                     s.log + [if key in s.items then OnUpdate(s.items[key], d.obj) else OnAdd(d.obj)]))
  }

  datatype Processed = Processed(store: Store, ok: bool)

  /** A batch, up to the first error. */
  function Process(s: Store, ds: seq<Input>): Processed {
    if ds == [] then Processed(s, true)
    else
      var r := Process(s, ds[..|ds| - 1]);
      if !r.ok then r
      else
        match Step(r.store, ds[|ds| - 1])
        case None => Processed(r.store, false)
        case Some(next) => Processed(next, true)
  }

  lemma ProcessMore(s: Store, ds: seq<Input>, d: Input)
    ensures Process(s, ds + [d]) ==
            var r := Process(s, ds);
            if !r.ok then r
            else match Step(r.store, d) case None => Processed(r.store, false) case Some(next) => Processed(next, true)
  {
    assert (ds + [d])[..|ds|] == ds;
  }

  lemma {:induction false} ProcessStop(s: Store, ds: seq<Input>, more: seq<Input>)
    requires !Process(s, ds).ok
    ensures Process(s, ds + more) == Process(s, ds)
    decreases |more|
  {
    if more == [] {
      assert ds + more == ds;
    } else {
      ProcessStop(s, ds, more[..|more| - 1]);
      assert ds + more == (ds + more[..|more| - 1]) + [more[|more| - 1]];
      ProcessMore(s, ds + more[..|more| - 1], more[|more| - 1]);
    }
  }

  // ---------------------------------------------------------------------------
  // The events tell the whole story.

  /** A listener's own copy of the store, kept by applying the events. */
  function Replay(log: seq<Event>): map<string, Stored> {
    if log == [] then map[]
    else
      var m := Replay(log[..|log| - 1]);
      match log[|log| - 1]
      case OnAdd(obj) => if KeyOf(obj).Some? then m[KeyOf(obj).value := obj] else m
      case OnUpdate(_, obj) => if KeyOf(obj).Some? then m[KeyOf(obj).value := obj] else m
      case OnDelete(obj) => if KeyOf(obj).Some? then m - {KeyOf(obj).value} else m
  }

  /** The event fits a listener that holds `m`: an add is of a new key, an update carries what is replaced. */
  predicate Fits(m: map<string, Stored>, e: Event) {
    match e
    case OnAdd(obj) => KeyOf(obj).Some? && KeyOf(obj).value !in m
    case OnUpdate(was, obj) => KeyOf(obj).Some? && KeyOf(obj).value in m && m[KeyOf(obj).value] == was
    case OnDelete(obj) => KeyOf(obj).Some?
  }

  predicate AllFit(log: seq<Event>) {
    log == [] || (AllFit(log[..|log| - 1]) && Fits(Replay(log[..|log| - 1]), log[|log| - 1]))
  }

  /** The listener's copy is the indexer, and every event fitted when it came. */
  predicate InStep(s: Store) { Replay(s.log) == s.items && AllFit(s.log) }

  lemma StepKeepsInStep(s: Store, d: Input)
    requires InStep(s) && Step(s, d).Some?
    ensures InStep(Step(s, d).value)
  {
    if d.kind != Unknown {
      var key := KeyOf(d.obj).value;
      FittingEvent(s.items, key, d);
      if d.kind == Deleted {
        OneMoreEvent(s.log, OnDelete(d.obj));
      } else if key in s.items {
        OneMoreEvent(s.log, OnUpdate(s.items[key], d.obj));
      } else {
        OneMoreEvent(s.log, OnAdd(d.obj));
      }
    }
  }

  lemma OneMoreEvent(log: seq<Event>, e: Event)
    requires KeyOf(e.obj).Some?
    ensures var key := KeyOf(e.obj).value;
            Replay(log + [e]) == if e.OnDelete? then Replay(log) - {key} else Replay(log)[key := e.obj]
    ensures AllFit(log + [e]) <==> AllFit(log) && Fits(Replay(log), e)
  {
    assert (log + [e])[..|log|] == log;
  }

  /** The event a delta leads to fits the store it meets. */
  lemma FittingEvent(items: map<string, Stored>, key: string, d: Input)
    requires KeyOf(d.obj) == Some(key)
    ensures Fits(items, OnDelete(d.obj))
    ensures key in items ==> Fits(items, OnUpdate(items[key], d.obj))
    ensures key !in items ==> Fits(items, OnAdd(d.obj))
  {
  }

  /** After any batches, also one cut short by an error, a listener that started empty holds exactly the indexer. */
  lemma {:induction false} ProcessKeepsInStep(s: Store, ds: seq<Input>)
    requires InStep(s)
    ensures InStep(Process(s, ds).store)
  {
    if ds != [] {
      ProcessKeepsInStep(s, ds[..|ds| - 1]);
      var r := Process(s, ds[..|ds| - 1]);
      if r.ok && Step(r.store, ds[|ds| - 1]).Some? { StepKeepsInStep(r.store, ds[|ds| - 1]); }
    }
  }

  // ---------------------------------------------------------------------------
  // What a batch leaves in the indexer, without running it.

  /** The last input that speaks of `key` decides; if none does the store keeps what it had. */
  function LastWord(items: map<string, Stored>, ds: seq<Input>, key: string): Option<Stored> {
    if ds == [] then (if key in items then Some(items[key]) else None)
    else
      var d := ds[|ds| - 1];
      if d.kind != Unknown && KeyOf(d.obj) == Some(key) then (if d.kind == Deleted then None else Some(d.obj))
      else LastWord(items, ds[..|ds| - 1], key)
  }

  predicate Keyed(d: Input) { d.kind == Unknown || KeyOf(d.obj).Some? }

  /** The inputs that are acted on, in order. */
  function Counted(ds: seq<Input>): seq<Input> {
    if ds == [] then []
    else Counted(ds[..|ds| - 1]) + if ds[|ds| - 1].kind != Unknown then [ds[|ds| - 1]] else []
  }

  /** The event tells of the input: a delete of a delete, an add or update of anything else, with its object. */
  predicate Tells(e: Event, d: Input) { e.obj == d.obj && (e.OnDelete? <==> d.kind == Deleted) }

  /** A batch that goes through sends one event for each input acted on, in order, with the input's object. */
  lemma {:induction false} ProcessEvents(s: Store, ds: seq<Input>)
    requires Process(s, ds).ok
    ensures var log, counted := Process(s, ds).store.log, Counted(ds);
            && s.log <= log && |log| == |s.log| + |counted|
            && forall i :: 0 <= i < |counted| ==> Tells(log[|s.log| + i], counted[i])
  {
    if ds != [] { ProcessEvents(s, ds[..|ds| - 1]); }
  }

  /**
    A batch goes through exactly when every input it acts on has a key; then the indexer holds
    the last word on every key.
   */
  lemma {:induction false} ProcessLastWord(s: Store, ds: seq<Input>, key: string)
    ensures Process(s, ds).ok <==> forall i :: 0 <= i < |ds| ==> Keyed(ds[i])
    ensures var r := Process(s, ds);
            r.ok ==> (if key in r.store.items then Some(r.store.items[key]) else None) == LastWord(s.items, ds, key)
  {
    if ds != [] {
      var init, d := ds[..|ds| - 1], ds[|ds| - 1];
      ProcessLastWord(s, init, key);
      assert forall i :: 0 <= i < |init| ==> init[i] == ds[i];
      assert Process(s, ds).ok <==> Process(s, init).ok && Keyed(d);
    }
  }

  /** Input `k` is the last one acted on that has this key. */
  ghost predicate LastOf(ds: seq<Input>, k: int, key: string) {
    && 0 <= k < |ds| && ds[k].kind != Unknown && KeyOf(ds[k].obj) == Some(key)
    && forall l :: k < l < |ds| && ds[l].kind != Unknown ==> KeyOf(ds[l].obj) != Some(key)
  }

  lemma {:induction false} LastWordAt(items: map<string, Stored>, ds: seq<Input>, k: int, key: string)
    requires LastOf(ds, k, key)
    ensures LastWord(items, ds, key) == if ds[k].kind == Deleted then None else Some(ds[k].obj)
  {
    if k < |ds| - 1 {
      assert ds[..|ds| - 1][k] == ds[k];
      LastWordAt(items, ds[..|ds| - 1], k, key);
    }
  }

  lemma {:induction false} NoWord(items: map<string, Stored>, ds: seq<Input>, key: string)
    requires forall l :: 0 <= l < |ds| && ds[l].kind != Unknown ==> KeyOf(ds[l].obj) != Some(key)
    ensures LastWord(items, ds, key) == if key in items then Some(items[key]) else None
  {
    if ds != [] {
      assert forall l :: 0 <= l < |ds| - 1 ==> ds[..|ds| - 1][l] == ds[l];
      NoWord(items, ds[..|ds| - 1], key);
    }
  }

  // ---------------------------------------------------------------------------
  // The loop on objects.

  /** The object whose fields the converter copies and blanks. */
  function RefOf(item: Item): ApiObject? {
    match item
    case Live(obj) => obj
    case Tombstone(_, last) => last
    case Foreign => null
  }

  /** The item with its object's content copied. */
  function Copied(item: Item, c: Content): Stored {
    match item
    case Live(_) => Object(c.(dropped := ""))
    case Tombstone(key, last) => Gone(key, if last == null then None else Some(c.(dropped := "")))
    case Foreign => Other
  }

  /** The copy has the object's namespace, name and kept fields, and nothing of the others. */
  predicate Keeps(copy: Content, c: Content) {
    copy.namespace == c.namespace && copy.name == c.name && copy.kept == c.kept && copy.dropped == ""
  }

  /** What is stored of an item whose object, if it has one, had content `c`. */
  predicate Carries(obj: Stored, item: Item, c: Content) {
    match item
    case Live(_) => obj.Object? && Keeps(obj.content, c)
    case Tombstone(key, last) =>
      && obj.Gone? && obj.key == key
      && (if last == null then obj.content' == None else obj.content'.Some? && Keeps(obj.content'.value, c))
    case Foreign => obj == Other
  }

  /** The key of an item whose object, if it has one, had content `c`. */
  predicate HasKey(item: Item, c: Content, key: string) {
    match item
    case Live(_) => key == if c.namespace == "" then c.name else c.namespace + "/" + c.name
    case Tombstone(k, _) => key == k
    case Foreign => false
  }

  /** An earlier delta of the batch holds the same object. */
  ghost predicate Repeated(deltas: seq<Delta>, i: nat)
    requires i < |deltas|
  {
    RefOf(deltas[i].item) != null && exists j :: 0 <= j < i && RefOf(deltas[j].item) == RefOf(deltas[i].item)
  }

  ghost function Refs(deltas: seq<Delta>): set<ApiObject> {
    set i | 0 <= i < |deltas| && RefOf(deltas[i].item) != null :: RefOf(deltas[i].item) as ApiObject
  }

  /** The contents of the objects in a batch. */
  ghost function ContentsOf(deltas: seq<Delta>): (cs: seq<Content>)
    reads Refs(deltas)
    ensures |cs| == |deltas|
    ensures forall i :: 0 <= i < |deltas| ==>
              cs[i] == if RefOf(deltas[i].item) == null then BLANK else RefOf(deltas[i].item).content
  {
    seq(|deltas|, i requires 0 <= i < |deltas| reads Refs(deltas) =>
      if RefOf(deltas[i].item) == null then BLANK else RefOf(deltas[i].item).content)
  }

  /** What the loop sees at each delta, from the contents before the batch: a repeated object is blank by then. */
  ghost function InputsOf(deltas: seq<Delta>, cs: seq<Content>): (ds: seq<Input>)
    requires |cs| == |deltas|
    ensures |ds| == |deltas|
    ensures forall i :: 0 <= i < |deltas| ==> ds[i] == InputAt(deltas, cs, i)
  {
    seq(|deltas|, i requires 0 <= i < |deltas| => InputAt(deltas, cs, i))
  }

  ghost function InputAt(deltas: seq<Delta>, cs: seq<Content>, i: nat): Input
    requires |cs| == |deltas| && i < |deltas|
  {
    Input(deltas[i].kind, Copied(deltas[i].item, if Repeated(deltas, i) then BLANK else cs[i]))
  }

  /** No object is in two deltas. */
  ghost predicate Distinct(deltas: seq<Delta>) {
    forall i, j :: 0 <= i < j < |deltas| && RefOf(deltas[i].item) != null ==>
                     RefOf(deltas[i].item) != RefOf(deltas[j].item)
  }

  ghost predicate SpeaksOf(deltas: seq<Delta>, cs: seq<Content>, i: int, key: string) {
    0 <= i < |deltas| && i < |cs| && deltas[i].kind != Unknown && HasKey(deltas[i].item, cs[i], key)
  }

  /** Delta `k` is the last one about the key, going by the contents before the batch. */
  ghost predicate LastDelta(deltas: seq<Delta>, cs: seq<Content>, k: int, key: string) {
    SpeaksOf(deltas, cs, k, key) && forall l :: k < l < |deltas| ==> !SpeaksOf(deltas, cs, l, key)
  }

  ghost predicate NoDelta(deltas: seq<Delta>, cs: seq<Content>, key: string) {
    forall l :: 0 <= l < |deltas| ==> !SpeaksOf(deltas, cs, l, key)
  }

  /** The last delta about each key decides, with the fields its object had; keys without one are as before. */
  ghost predicate Settled(before: map<string, Stored>, after: map<string, Stored>,
                          deltas: seq<Delta>, cs: seq<Content>)
  {
    && (forall k, key :: LastDelta(deltas, cs, k, key) ==>
          if deltas[k].kind == Deleted then key !in after
          else key in after && Carries(after[key], deltas[k].item, cs[k]))
    && (forall key :: NoDelta(deltas, cs, key) ==>
          (key in after <==> key in before) && (key in after ==> after[key] == before[key]))
  }

  /** In a batch of distinct objects each input has the key and the fields its object had before. */
  lemma DistinctInput(deltas: seq<Delta>, cs: seq<Content>, i: nat, key: string)
    requires |cs| == |deltas| && i < |deltas| && Distinct(deltas)
    ensures var d := InputsOf(deltas, cs)[i];
            && d.kind == deltas[i].kind && Carries(d.obj, deltas[i].item, cs[i])
            && (KeyOf(d.obj) == Some(key) <==> HasKey(deltas[i].item, cs[i], key))
  {
    assert !Repeated(deltas, i);
  }

  lemma DistinctBatch(start: Store, deltas: seq<Delta>, cs: seq<Content>, key: string)
    requires |cs| == |deltas| && Distinct(deltas) && Process(start, InputsOf(deltas, cs)).ok
    ensures var items := Process(start, InputsOf(deltas, cs)).store.items;
            && (forall k :: LastDelta(deltas, cs, k, key) ==>
                  if deltas[k].kind == Deleted then key !in items
                  else key in items && Carries(items[key], deltas[k].item, cs[k]))
            && (NoDelta(deltas, cs, key) ==>
                  (key in items <==> key in start.items) && (key in items ==> items[key] == start.items[key]))
  {
    var ds := InputsOf(deltas, cs);
    forall i: nat | i < |deltas|
      ensures ds[i].kind == deltas[i].kind && Carries(ds[i].obj, deltas[i].item, cs[i])
      ensures ds[i].kind != Unknown && KeyOf(ds[i].obj) == Some(key) <==> SpeaksOf(deltas, cs, i, key)
    {
      DistinctInput(deltas, cs, i, key);
    }
    ProcessLastWord(start, ds, key);
    forall k | LastDelta(deltas, cs, k, key)
      ensures LastWord(start.items, ds, key) == if ds[k].kind == Deleted then None else Some(ds[k].obj)
    {
      LastWordAt(start.items, ds, k, key);
    }
    if NoDelta(deltas, cs, key) { NoWord(start.items, ds, key); }
  }

  lemma DistinctSettles(start: Store, deltas: seq<Delta>, cs: seq<Content>)
    requires |cs| == |deltas| && Distinct(deltas) && Process(start, InputsOf(deltas, cs)).ok
    ensures Settled(start.items, Process(start, InputsOf(deltas, cs)).store.items, deltas, cs)
  {
    forall key { DistinctBatch(start, deltas, cs, key); }
  }

  class SharedInformer {
    var indexer: map<string, Stored>
    /** Every call of the event handler so far. */
    var events: seq<Event>

    constructor ()
      ensures indexer == map[] && events == [] && InStep(View())
    {
      indexer, events := map[], [];
    }

    function View(): Store
      reads this
    {
      Store(indexer, events)
    }

    method ProcessDeltas(deltas: seq<Delta>) returns (ok: bool)
      requires InStep(View())
      modifies this, Refs(deltas)
      ensures Processed(View(), ok) == Process(old(View()), InputsOf(deltas, old(ContentsOf(deltas))))
      ensures InStep(View())
      ensures ok ==> forall o :: o in Refs(deltas) ==> o.content == BLANK
      ensures ok && Distinct(deltas) ==> Settled(old(indexer), indexer, deltas, old(ContentsOf(deltas)))
    {
      ghost var cs := ContentsOf(deltas);
      ghost var start := View();
      ok := ProcessAll(deltas);
      ProcessKeepsInStep(start, InputsOf(deltas, cs));
      if ok && Distinct(deltas) { DistinctSettles(start, deltas, cs); }
    }

    /** The loop. */
    method ProcessAll(deltas: seq<Delta>) returns (ok: bool)
      modifies this, Refs(deltas)
      ensures Processed(View(), ok) == Process(old(View()), InputsOf(deltas, old(ContentsOf(deltas))))
      ensures ok ==> forall o :: o in Refs(deltas) ==> o.content == BLANK
    {
      ghost var ds := InputsOf(deltas, ContentsOf(deltas));
      ghost var start := View();
      for k := 0 to |deltas|
        invariant Process(start, ds[..k]) == Processed(View(), true)
        invariant forall o :: o in Refs(deltas) ==>
                    o.content == if o in Refs(deltas[..k]) then BLANK else old(o.content)
        modifies this, Refs(deltas)
      {
        RefsMore(deltas, k);
        assert ds[..k + 1] == ds[..k] + [ds[k]];
        ProcessMore(start, ds[..k], ds[k]);
        ok := ProcessOne(deltas[k]);
        if !ok {
          assert ds == ds[..k + 1] + ds[k + 1..];
          ProcessStop(start, ds[..k + 1], ds[k + 1..]);
          return;
        }
      }
      assert ds[..|deltas|] == ds && deltas[..|deltas|] == deltas;
      ok := true;
    }

    /** The body of the loop: convert, then act on what came out. */
    method ProcessOne(d: Delta) returns (ok: bool)
      modifies this, if RefOf(d.item) == null then {} else {RefOf(d.item)}
      ensures RefOf(d.item) != null ==> RefOf(d.item).content == BLANK
      ensures match Step(old(View()), Input(d.kind, Copied(d.item, if RefOf(d.item) == null then BLANK
                                                                   else old(RefOf(d.item).content))))
              case None => !ok && View() == old(View())
              case Some(next) => ok && View() == next
    {
      var obj := Convert(d.item);
      ok := Act(d.kind, obj);
    }

    /** The switch on the delta's type, on the indexer and the event handler. */
    method Act(kind: Kind, obj: Stored) returns (ok: bool)
      modifies this
      ensures match Step(old(View()), Input(kind, obj))
              case None => !ok && View() == old(View())
              case Some(next) => ok && View() == next
    {
      match kind {
        case Sync | Added | Updated | Replaced =>
          var key := KeyOf(obj);
          if key.Some? && key.value in indexer {
            var was := indexer[key.value];
            indexer := indexer[key.value := obj];
            events := events + [OnUpdate(was, obj)];
          } else {
            if key.None? {
              return false;
            }
            indexer := indexer[key.value := obj];
            events := events + [OnAdd(obj)];
          }
        case Deleted =>
          var key := KeyOf(obj);
          if key.None? {
            return false;
          }
          indexer := indexer - {key.value};
          events := events + [OnDelete(obj)];
        case Unknown =>
      }
      ok := true;
    }
  }

  lemma RefsMore(deltas: seq<Delta>, k: nat)
    requires k < |deltas|
    ensures var o := RefOf(deltas[k].item);
            && (o != null ==> o in Refs(deltas))
            && Refs(deltas[..k + 1]) == Refs(deltas[..k]) + (if o == null then {} else {o})
            && (Repeated(deltas, k) <==> o != null && o in Refs(deltas[..k]))
  {
    var o := RefOf(deltas[k].item);
    var before, after := deltas[..k], deltas[..k + 1];
    assert forall i :: 0 <= i < k ==> before[i] == deltas[i] && after[i] == deltas[i];
    assert after[k] == deltas[k];
    if Repeated(deltas, k) {
      var j :| 0 <= j < k && RefOf(deltas[j].item) == o;
      assert RefOf(before[j].item) == o;
    }
  }

  /** The converter: copy the kept fields, blank the original. */
  method Convert(item: Item) returns (obj: Stored)
    modifies if RefOf(item) == null then {} else {RefOf(item)}
    ensures RefOf(item) != null ==> RefOf(item).content == BLANK
    ensures match item
            case Live(o) =>
              && o.content == Content("", "", "", "")
              && obj.Object?
              && obj.content == Content(old(o.content.namespace), old(o.content.name), old(o.content.kept), "")
            case Tombstone(key, last) =>
              && obj.Gone? && obj.key == key && (last == null <==> obj.content' == None)
              && (last != null ==>
                    && last.content == Content("", "", "", "")
                    && obj.content' == Some(Content(old(last.content.namespace), old(last.content.name),
                                                 old(last.content.kept), "")))
            case Foreign => obj == Other
    ensures obj == Copied(item, if RefOf(item) == null then BLANK else old(RefOf(item).content))
  {
    match item {
      case Live(o) =>
        obj := Object(Content(o.content.namespace, o.content.name, o.content.kept, ""));
        o.content := BLANK;
      case Tombstone(key, last) =>
        if last == null {
          return Gone(key, None);
        }
        obj := Gone(key, Some(Content(last.content.namespace, last.content.name, last.content.kept, "")));
        last.content := BLANK;
      case Foreign =>
        return Other;
    }
  }
}
