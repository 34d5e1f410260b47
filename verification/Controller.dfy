/**
  The controller: the keys it puts on its work queue, how a key is routed back to a handler,
  and the bounded retry of keys whose handler fails.
 */
module Controller {
  import opened Text

  // ---------------------------------------------------------------------------
  // Queue keys.

  datatype Kind = ServiceKind | SliceKind | OtherKind

  function KindName(kind: Kind): string {
    match kind
    case ServiceKind => "Service"
    case SliceKind => "EndpointSlice"
    case OtherKind => "Unknown"
  }

  function QueueKey(kind: Kind, namespace: string, name: string): string {
    KindName(kind) + "/" + MetaKey(namespace, name)
  }

  datatype Route = ToService(namespace: string, name: string) | ToEndpoints(namespace: string, name: string) | Ignored

  function Handle(key: string): Route {
    var parts := Split(key, "/");
    if |parts| != 3 then Ignored
    else if parts[0] == "Service" then ToService(parts[1], parts[2])
    else if parts[0] == "EndpointSlice" then ToEndpoints(parts[1], parts[2])
    else Ignored
  }

  /** Where a key of this kind, namespace and name ought to go. */
  function Destination(kind: Kind, namespace: string, name: string): Route {
    match kind
    case ServiceKind => ToService(namespace, name)
    case SliceKind => ToEndpoints(namespace, name)
    case OtherKind => Ignored
  }

  lemma KindNameFree(kind: Kind)
    ensures Free(KindName(kind), '/')
  {
  }

  lemma SplitThree(a: string, b: string, c: string)
    requires Free(a, '/') && Free(b, '/') && Free(c, '/')
    ensures Split(a + "/" + (b + "/" + c), "/") == [a, b, c]
  {
    JoinThree(a, b, c);
    SplitJoin([a, b, c], '/');
  }

  lemma JoinThree(a: string, b: string, c: string)
    ensures Join([a, b, c], "/") == a + "/" + (b + "/" + c)
  {
    var parts := [a, b, c];
    assert parts[1..] == [b, c] && parts[1..][1..] == [c];
    assert Join([b, c], "/") == b + "/" + c;
  }

  /**
    A key comes back to the handler of its kind with its own namespace and name, or is ignored if
    its kind has none, exactly when its kind has no handler, or the namespace is not empty and
    neither part has a slash in it.
   */
  lemma KeyRoundTripIff(kind: Kind, namespace: string, name: string)
    ensures Handle(QueueKey(kind, namespace, name)) == Destination(kind, namespace, name) <==>
            kind == OtherKind || (namespace != "" && Free(namespace, '/') && Free(name, '/'))
  {
    if kind == OtherKind {
      FirstPart(kind, namespace, name);
    } else {
      if namespace != "" && Free(namespace, '/') && Free(name, '/') { PartsOfKey(kind, namespace, name); }
      if Handle(QueueKey(kind, namespace, name)) == Destination(kind, namespace, name) {
        RoutedIsProper(kind, namespace, name);
      }
    }
  }

  /** The first part of any key is its kind's name, the rest is the object's own key. */
  lemma FirstPart(kind: Kind, namespace: string, name: string)
    ensures Split(QueueKey(kind, namespace, name), "/") == [KindName(kind)] + Split(MetaKey(namespace, name), "/")
  {
    var k, rest := KindName(kind), MetaKey(namespace, name);
    var key := k + "/" + rest;
    KindNameFree(kind);
    IndexOfChar(k, '/', rest);
    assert key[..|k|] == k && key[|k| + 1..] == rest;
  }

  /** The parts of a key whose namespace and name are slash-free. */
  lemma PartsOfKey(kind: Kind, namespace: string, name: string)
    requires Free(namespace, '/') && Free(name, '/')
    ensures Split(QueueKey(kind, namespace, name), "/") ==
            if namespace != "" then [KindName(kind), namespace, name] else [KindName(kind), name]
  {
    KindNameFree(kind);
    if namespace != "" {
      SplitThree(KindName(kind), namespace, name);
    } else {
      assert Join([KindName(kind), name], "/") == KindName(kind) + "/" + name;
      SplitJoin([KindName(kind), name], '/');
    }
  }

  lemma RoutedIsProper(kind: Kind, namespace: string, name: string)
    requires kind != OtherKind && Handle(QueueKey(kind, namespace, name)) == Destination(kind, namespace, name)
    ensures namespace != "" && Free(namespace, '/') && Free(name, '/')
  {
    var key := QueueKey(kind, namespace, name);
    var parts := Split(key, "/");
    SplitFree(key, '/');
    assert parts[1] == namespace && parts[2] == name;
    KindNameFree(kind);
    assert Join([KindName(kind), name], "/") == KindName(kind) + "/" + name;
    SplitJoin([KindName(kind), name], '/');
  }

  /** Any two objects whatever share a queue key exactly when they share kind and object key. */
  lemma SameKeyIff(kind: Kind, namespace: string, name: string, kind': Kind, namespace': string, name': string)
    ensures QueueKey(kind, namespace, name) == QueueKey(kind', namespace', name') <==>
            kind == kind' && MetaKey(namespace, name) == MetaKey(namespace', name')
  {
    FirstPart(kind, namespace, name);
    FirstPart(kind', namespace', name');
    JoinSplit(MetaKey(namespace, name), "/");
    JoinSplit(MetaKey(namespace', name'), "/");
    if QueueKey(kind, namespace, name) == QueueKey(kind', namespace', name') {
      SameTail(KindName(kind), Split(MetaKey(namespace, name), "/"),
               KindName(kind'), Split(MetaKey(namespace', name'), "/"));
    }
  }

  lemma SameTail(x: string, xs: seq<string>, y: string, ys: seq<string>)
    requires [x] + xs == [y] + ys
    ensures x == y && xs == ys
  {
    assert ([x] + xs)[0] == x && ([y] + ys)[0] == y;
    assert ([x] + xs)[1..] == xs && ([y] + ys)[1..] == ys;
  }

  /** Different objects with slash-free namespace and name never share a key, namespace or none, handled or not. */
  lemma KeysDistinct(kind: Kind, namespace: string, name: string, kind': Kind, namespace': string, name': string)
    requires Free(namespace, '/') && Free(name, '/') && Free(namespace', '/') && Free(name', '/')
    requires QueueKey(kind, namespace, name) == QueueKey(kind', namespace', name')
    ensures kind == kind' && namespace == namespace' && name == name'
  {
    SameKeyIff(kind, namespace, name, kind', namespace', name');
    MetaKeysEqualIff(namespace, name, namespace', name');
  }

  /** The strings that reach a handler, and what it gets. */
  lemma RoutedIff(key: string, namespace: string, name: string)
    ensures Handle(key) == ToService(namespace, name) <==>
            key == "Service/" + namespace + "/" + name && Free(namespace, '/') && Free(name, '/')
    ensures Handle(key) == ToEndpoints(namespace, name) <==>
            key == "EndpointSlice/" + namespace + "/" + name && Free(namespace, '/') && Free(name, '/')
  {
    PartsIff(key, "Service", namespace, name);
    PartsIff(key, "EndpointSlice", namespace, name);
    assert "Service" + "/" == "Service/" && "EndpointSlice" + "/" == "EndpointSlice/";
  }

  lemma PartsIff(key: string, a: string, b: string, c: string)
    requires Free(a, '/')
    ensures Split(key, "/") == [a, b, c] <==> key == a + "/" + b + "/" + c && Free(b, '/') && Free(c, '/')
  {
    assert a + "/" + b + "/" + c == a + "/" + (b + "/" + c);
    if Split(key, "/") == [a, b, c] {
      var parts := Split(key, "/");
      SplitFree(key, '/');
      assert Free(parts[1], '/') && Free(parts[2], '/');
      JoinSplit(key, "/");
      JoinThree(a, b, c);
    } else if key == a + "/" + b + "/" + c && Free(b, '/') && Free(c, '/') {
      SplitThree(a, b, c);
    }
  }

  /** A slash in a name can make two objects share a key. */
  lemma SlashesCollide(kind: Kind)
    ensures QueueKey(kind, "", "a/b") == QueueKey(kind, "a", "b")
  {
    assert "a" + "/" + "b" == "a/b";
  }

  /** Splitting at a character makes one more part than it occurs. */
  lemma {:induction false} PartsAndSlashes(s: string, c: char)
    ensures |Split(s, [c])| == multiset(s)[c] + 1
    decreases |s|
  {
    if Index(s, [c]).Some? {
      var i := Index(s, [c]).value;
      var rest := s[i + 1..];
      IndexFound(s, [c]);
      IndexBeforeFree(s, c);
      PartsAndSlashes(rest, c);
      assert s == s[..i] + [c] + rest by { assert s[i..i + 1] == [c]; }
      assert multiset(s) == multiset(s[..i]) + multiset{c} + multiset(rest);
    } else {
      IndexOfNoChar(s, c);
    }
  }

  /** A key is acted on exactly when it has two slashes and starts with the name of a handled kind. */
  lemma IgnoredIff(key: string)
    ensures Handle(key) != Ignored <==>
            multiset(key)['/'] == 2 && Split(key, "/")[0] in {"Service", "EndpointSlice"}
  {
    PartsAndSlashes(key, '/');
  }

  // ---------------------------------------------------------------------------
  // Retries.

  /** `pending` are the keys to be handled (the queue holds each at most once), `requeues` the rate limiter's counts. */
  datatype Queue = Queue(pending: set<string>, requeues: map<string, nat>) {
    function NumRequeues(key: string): nat { if key in requeues then requeues[key] else 0 }
  }

  const EMPTY_QUEUE := Queue({}, map[])

  /** A key comes in from outside, or a pending one is handled, with success or not. */
  datatype Event = Enqueued(key: string) | Handled(key: string, ok: bool)

  /** The failed key goes back on the queue. */
  predicate Retries(max: nat, q: Queue, key: string) { max == 0 || q.NumRequeues(key) < max }

  function After(max: nat, q: Queue, e: Event): Queue {
    match e
    case Enqueued(key) => q.(pending := q.pending + {key})
    case Handled(key, ok) =>
      if ok then Queue(q.pending - {key}, q.requeues - {key})
      else if Retries(max, q, key) then Queue(q.pending + {key}, q.requeues[key := q.NumRequeues(key) + 1])
      else q.(pending := q.pending - {key})
  }

  function RunQueue(max: nat, es: seq<Event>): Queue {
    if es == [] then EMPTY_QUEUE else After(max, RunQueue(max, es[..|es| - 1]), es[|es| - 1])
  }

  /** Only pending keys are handled. */
  predicate ProperRun(max: nat, es: seq<Event>) {
    es == [] ||
    (ProperRun(max, es[..|es| - 1]) &&
     (es[|es| - 1].Handled? ==> es[|es| - 1].key in RunQueue(max, es[..|es| - 1]).pending))
  }

  class BaseController {
    const maxRetries: nat
    var pending: set<string>
    var requeues: map<string, nat>

    constructor (max: nat)
      ensures maxRetries == max && View() == EMPTY_QUEUE
    {
      maxRetries, pending, requeues := max, {}, map[];
    }

    function View(): Queue
      reads this
    {
      Queue(pending, requeues)
    }

    method Enqueue(kind: Kind, namespace: string, name: string)
      modifies this
      ensures View() == After(maxRetries, old(View()), Enqueued(QueueKey(kind, namespace, name)))
    {
      var key := if namespace != "" then namespace + "/" + name else name;
      pending := pending + {KindName(kind) + "/" + key};
    }

    /** Handle one key of the queue's choosing; `false` once the queue is empty and shut down. */
    method ProcessNextWorkItem(handler: string -> bool) returns (more: bool, key: string)
      modifies this
      ensures more <==> old(pending) != {}
      ensures more ==> key in old(pending) && View() == After(maxRetries, old(View()), Handled(key, handler(key)))
      ensures !more ==> View() == old(View())
    {
      if pending == {} {
        return false, "";
      }
      more := true;
      key :| key in pending;
      pending := pending - {key};
      var ok := handler(key);
      if !ok {
        var count := if key in requeues then requeues[key] else 0;
        if maxRetries == 0 || count < maxRetries {
          requeues := requeues[key := count + 1];
          pending := pending + {key};
          assert View().pending == old(pending);
          return;
        }
        return;
      }
      requeues := requeues - {key};
    }
  }

  // Counts over a run.

  predicate IsFailure(e: Event, key: string) { e == Handled(key, false) }

  predicate IsSuccess(e: Event, key: string) { e == Handled(key, true) }

  function Failures(es: seq<Event>, key: string): nat {
    if es == [] then 0 else Failures(es[..|es| - 1], key) + if IsFailure(es[|es| - 1], key) then 1 else 0
  }

  function Successes(es: seq<Event>, key: string): nat {
    if es == [] then 0 else Successes(es[..|es| - 1], key) + if IsSuccess(es[|es| - 1], key) then 1 else 0
  }

  function Enqueues(es: seq<Event>, key: string): nat {
    if es == [] then 0 else Enqueues(es[..|es| - 1], key) + if es[|es| - 1] == Enqueued(key) then 1 else 0
  }

  /** Failures since the last success. */
  function Streak(es: seq<Event>, key: string): nat {
    if es == [] then 0
    else if IsSuccess(es[|es| - 1], key) then 0
    else Streak(es[..|es| - 1], key) + if IsFailure(es[|es| - 1], key) then 1 else 0
  }

  /** Failures after which the key is on the queue. */
  function Requeued(max: nat, es: seq<Event>, key: string): nat {
    if es == [] then 0
    else
      Requeued(max, es[..|es| - 1], key) +
      if IsFailure(es[|es| - 1], key) && key in RunQueue(max, es).pending then 1 else 0
  }

  /** Failures after which the key is gone from the queue. */
  function Dropped(max: nat, es: seq<Event>, key: string): nat {
    if es == [] then 0
    else
      Dropped(max, es[..|es| - 1], key) +
      if IsFailure(es[|es| - 1], key) && key !in RunQueue(max, es).pending then 1 else 0
  }

  /** Times the key came in while it was not on the queue. */
  function Admitted(max: nat, es: seq<Event>, key: string): nat {
    if es == [] then 0
    else
      var init := es[..|es| - 1];
      Admitted(max, init, key) +
      if es[|es| - 1] == Enqueued(key) && key !in RunQueue(max, init).pending then 1 else 0
  }

  /** Failures that came before the limit: fewer than `max` since the last success, or any when there is no limit. */
  function EarlyFailures(max: nat, es: seq<Event>, key: string): nat {
    if es == [] then 0
    else
      var init := es[..|es| - 1];
      EarlyFailures(max, init, key) +
      if IsFailure(es[|es| - 1], key) && (max == 0 || Streak(init, key) < max) then 1 else 0
  }

  function Min(a: nat, b: nat): nat { if a < b then a else b }

  /** The rate limiter's count is the number of failures since the last success, capped at the limit. */
  lemma {:induction false} CountIsStreak(max: nat, es: seq<Event>, key: string)
    ensures RunQueue(max, es).NumRequeues(key) == if max == 0 then Streak(es, key) else Min(max, Streak(es, key))
  {
    if es != [] { CountIsStreak(max, es[..|es| - 1], key); }
  }

  /** Which failures put the key back can be told from the events alone; the others drop it. */
  lemma {:induction false} RequeuedAreEarly(max: nat, es: seq<Event>, key: string)
    ensures Requeued(max, es, key) == EarlyFailures(max, es, key)
    ensures Requeued(max, es, key) + Dropped(max, es, key) == Failures(es, key)
  {
    if es != [] {
      RequeuedAreEarly(max, es[..|es| - 1], key);
      CountIsStreak(max, es[..|es| - 1], key);
    }
  }

  /** Every time a key gets onto the queue it ends in a success or a drop, or is still there. */
  lemma {:induction false} NothingGetsLost(max: nat, es: seq<Event>, key: string)
    requires ProperRun(max, es)
    ensures Admitted(max, es, key) ==
            Successes(es, key) + Dropped(max, es, key) + (if key in RunQueue(max, es).pending then 1 else 0)
  {
    if es != [] { NothingGetsLost(max, es[..|es| - 1], key); }
  }

  /** Without a limit nothing is ever dropped. */
  lemma {:induction false} NoLimitNoDrop(es: seq<Event>, key: string)
    ensures Dropped(0, es, key) == 0 && Requeued(0, es, key) == Failures(es, key)
  {
    if es != [] { NoLimitNoDrop(es[..|es| - 1], key); }
  }

  /** With a limit of `max`, each success allows `max` more retries and the start allows `max`. */
  lemma {:induction false} RetryBudget(max: nat, es: seq<Event>, key: string)
    requires max > 0
    ensures Requeued(max, es, key) <= max * Successes(es, key) + RunQueue(max, es).NumRequeues(key)
    ensures Requeued(max, es, key) <= max * (Successes(es, key) + 1)
  {
    CountIsStreak(max, es, key);
    if es != [] {
      var init := es[..|es| - 1];
      RetryBudget(max, init, key);
      CountIsStreak(max, init, key);
      assert max * (Successes(init, key) + 1) == max * Successes(init, key) + max;
    }
    assert max * (Successes(es, key) + 1) == max * Successes(es, key) + max;
  }

  /**
    A key that came in once and never succeeds is handled exactly `max + 1` times: it is pending
    for as long as it was handled fewer times, and never handled again.
   */
  lemma {:induction false} AlwaysFails(max: nat, es: seq<Event>, key: string)
    requires max > 0 && ProperRun(max, es) && Enqueues(es, key) <= 1 && Successes(es, key) == 0
    ensures Failures(es, key) <= (max + 1) * Enqueues(es, key)
    ensures key in RunQueue(max, es).pending <==> Enqueues(es, key) == 1 && Failures(es, key) <= max
    ensures Streak(es, key) == Failures(es, key)
  {
    if es != [] {
      var init := es[..|es| - 1];
      AlwaysFails(max, init, key);
      CountIsStreak(max, init, key);
    }
  }

  /** Once dropped, a key gets one attempt per time it comes in again, until one succeeds. */
  lemma OneAttemptAfterDrop(max: nat, es: seq<Event>, key: string)
    requires max > 0 && Streak(es, key) >= max
    ensures var q := After(max, RunQueue(max, es), Enqueued(key));
            key in q.pending && key !in After(max, q, Handled(key, false)).pending
  {
    CountIsStreak(max, es, key);
  }
}
