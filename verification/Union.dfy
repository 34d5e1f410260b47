/**
  `IterUnion`: call `f` on the members of the union of some sets, each once, until `f` says
  stop. One set is iterated directly; two to four are sorted by size in place and an item is
  skipped when an earlier set has it; five or more keep a set of the items already seen.

  The sets are not changed, so they are values here; the slice that holds them is an array,
  because it is sorted in place. `f` is a function of the items it was given before and the
  item it is given now.
 */
module Union {
  import opened Sets

  type Callback<!T> = (seq<T>, T) -> bool

  function UnionOf<T>(sets: seq<set<T>>): set<T> {
    if sets == [] then {} else UnionOf(sets[..|sets| - 1]) + sets[|sets| - 1]
  }

  lemma {:induction false} InUnion<T>(sets: seq<set<T>>, x: T)
    ensures x in UnionOf(sets) <==> exists s :: s in sets && x in s
  {
    if sets != [] {
      var init, last := sets[..|sets| - 1], sets[|sets| - 1];
      InUnion(init, x);
      assert sets == init + [last];
      assert forall s :: s in sets <==> s in init || s == last;
    }
  }

  /** Sorting the slice does not change the union. */
  lemma UnionOfPermutation<T>(sets: seq<set<T>>, sorted: seq<set<T>>)
    requires multiset(sets) == multiset(sorted)
    ensures UnionOf(sets) == UnionOf(sorted)
  {
    forall s ensures s in sets <==> s in sorted {
      assert s in sets <==> s in multiset(sets);
      assert s in sorted <==> s in multiset(sorted);
    }
    UnionOfMembers(sets, sorted);
    UnionOfMembers(sorted, sets);
  }

  lemma UnionOfMembers<T>(a: seq<set<T>>, b: seq<set<T>>)
    requires forall s :: s in a ==> s in b
    ensures UnionOf(a) <= UnionOf(b)
  {
    forall x | x in UnionOf(a) ensures x in UnionOf(b) {
      InUnion(a, x);
      InUnion(b, x);
    }
  }

  lemma UnionMore<T>(sets: seq<set<T>>, i: nat)
    requires i < |sets|
    ensures UnionOf(sets[..i + 1]) == UnionOf(sets[..i]) + sets[i]
  {
    assert sets[..i + 1][..i] == sets[..i];
  }

  lemma {:induction false} UnionPrefix<T>(sets: seq<set<T>>, i: nat)
    requires i <= |sets|
    ensures UnionOf(sets[..i]) <= UnionOf(sets)
    decreases |sets| - i
  {
    if i == |sets| {
      assert sets[..i] == sets;
    } else {
      UnionMore(sets, i);
      UnionPrefix(sets, i + 1);
    }
  }

  ghost predicate Accepted<T>(f: Callback<T>, calls: seq<T>, i: nat)
    requires i < |calls|
  {
    f(calls[..i], calls[i])
  }

  /** `f` accepted every call so far; the calls are `pool`, each once. */
  ghost predicate Complete<T(!new)>(pool: set<T>, f: Callback<T>, calls: seq<T>) {
    && NoDuplicates(calls)
    && (forall x :: x in calls <==> x in pool)
    && (forall i :: 0 <= i < |calls| ==> Accepted(f, calls, i))
  }

  /** `f` rejected the last call and no other; the calls are distinct members of `pool`. */
  ghost predicate Stopped<T(!new)>(pool: set<T>, f: Callback<T>, calls: seq<T>) {
    && calls != []
    && NoDuplicates(calls)
    && (forall x :: x in calls ==> x in pool)
    && (forall i :: 0 <= i < |calls| ==> (Accepted(f, calls, i) <==> i < |calls| - 1))
  }

  ghost predicate Traversed<T(!new)>(pool: set<T>, f: Callback<T>, calls: seq<T>, stop: bool) {
    if stop then Stopped(pool, f, calls) else Complete(pool, f, calls)
  }

  lemma CallOne<T(!new)>(pool: set<T>, f: Callback<T>, calls: seq<T>, x: T, whole: set<T>)
    requires Complete(pool, f, calls) && x !in pool && pool + {x} <= whole
    ensures if f(calls, x) then Complete(pool + {x}, f, calls + [x]) else Stopped(whole, f, calls + [x])
  {
    var more := calls + [x];
    NoDuplicatesMore(calls, x);
    assert more[..|calls|] == calls;
    forall i | 0 <= i < |calls| ensures Accepted(f, more, i) {
      assert Accepted(f, calls, i) && more[..i] == calls[..i];
    }
    assert Accepted(f, more, |calls|) <==> f(calls, x);
  }

  /** One set: its members in any order until `f` says stop. */
  method IterOne<T(!new, ==)>(s: set<T>, f: Callback<T>) returns (calls: seq<T>, stop: bool)
    ensures Traversed(s, f, calls, stop)
  {
    calls, stop := [], false;
    var rest := s;
    while rest != {}
      invariant rest <= s && Complete(s - rest, f, calls) && !stop
      decreases rest
    {
      var item :| item in rest;
      CallOne(s - rest, f, calls, item, s);
      assert s - (rest - {item}) == (s - rest) + {item};
      rest := rest - {item};
      var proceed := f(calls, item);
      calls := calls + [item];
      if !proceed {
        stop := true;
        return;
      }
    }
    assert s - rest == s;
  }

  /** Biggest set first. */
  ghost predicate BySize<T>(sets: seq<set<T>>) {
    forall i, j :: 0 <= i < j < |sets| ==> |sets[i]| >= |sets[j]|
  }

  method SortBySize<T(==)>(sets: array<set<T>>)
    modifies sets
    ensures multiset(sets[..]) == multiset(old(sets[..])) && BySize(sets[..])
  {
    var n := sets.Length;
    for i := 0 to n
      invariant multiset(sets[..]) == multiset(old(sets[..]))
      invariant forall a, b :: 0 <= a < i && a < b < n ==> |sets[a]| >= |sets[b]|
    {
      var m := BiggestFrom(sets, i);
      Swap(sets, i, m);
    }
  }

  method Swap<T>(sets: array<set<T>>, i: nat, m: nat)
    requires i <= m < sets.Length
    modifies sets
    ensures forall k :: 0 <= k < sets.Length && k != i && k != m ==> sets[k] == old(sets[k])
    ensures sets[i] == old(sets[m]) && sets[m] == old(sets[i])
    ensures multiset(sets[..]) == multiset(old(sets[..]))
  {
    sets[i], sets[m] := sets[m], sets[i];
  }

  method BiggestFrom<T>(sets: array<set<T>>, i: nat) returns (m: nat)
    requires i < sets.Length
    ensures i <= m < sets.Length && forall b :: i <= b < sets.Length ==> |sets[m]| >= |sets[b]|
  {
    m := i;
    for k := i to sets.Length
      invariant i <= m < sets.Length
      invariant forall b :: i <= b < k ==> |sets[m]| >= |sets[b]|
    {
      if |sets[k]| > |sets[m]| { m := k; }
    }
  }

  /** Is the item in one of the first `i` sets? */
  method InEarlier<T(==)>(sets: seq<set<T>>, i: nat, item: T) returns (found: bool)
    requires i <= |sets|
    ensures found <==> item in UnionOf(sets[..i])
  {
    for j := 0 to i
      invariant item !in UnionOf(sets[..j])
    {
      UnionMore(sets, j);
      if item in sets[j] {
        UnionPrefix(sets[..i], j + 1);
        assert sets[..i][..j + 1] == sets[..j + 1];
        return true;
      }
    }
    return false;
  }

  /** The iteration over set `i`, skipping what the earlier sets have. */
  method IterFresh<T(!new, ==)>(sets: seq<set<T>>, i: nat, f: Callback<T>, before: seq<T>)
      returns (calls: seq<T>, stop: bool)
    requires i < |sets| && Complete(UnionOf(sets[..i]), f, before)
    ensures if stop then Stopped(UnionOf(sets), f, calls) else Complete(UnionOf(sets[..i + 1]), f, calls)
  {
    ghost var earlier := UnionOf(sets[..i]);
    UnionMore(sets, i);
    UnionPrefix(sets, i + 1);
    calls, stop := before, false;
    var rest := sets[i];
    assert earlier + (sets[i] - rest) == earlier;
    while rest != {}
      invariant rest <= sets[i] && Complete(earlier + (sets[i] - rest), f, calls) && !stop
      decreases rest
    {
      var item :| item in rest;
      ghost var pool := earlier + (sets[i] - rest);
      var skip := InEarlier(sets, i, item);
      assert earlier + (sets[i] - (rest - {item})) == pool + {item};
      rest := rest - {item};
      if !skip {
        CallOne(pool, f, calls, item, UnionOf(sets));
        var proceed := f(calls, item);
        calls := calls + [item];
        if !proceed {
          stop := true;
          return;
        }
      } else {
        assert pool + {item} == pool;
      }
    }
    assert earlier + (sets[i] - rest) == UnionOf(sets[..i + 1]);
  }

  /** Two to four sets, sorted in place. */
  method IterFew<T(!new, ==)>(sets: array<set<T>>, f: Callback<T>) returns (calls: seq<T>, stop: bool)
    modifies sets
    ensures Traversed(UnionOf(old(sets[..])), f, calls, stop)
    ensures multiset(sets[..]) == multiset(old(sets[..])) && BySize(sets[..])
  {
    SortBySize(sets);
    UnionOfPermutation(old(sets[..]), sets[..]);
    ghost var sorted := sets[..];
    calls, stop := [], false;
    for i := 0 to sets.Length
      invariant sets[..] == sorted && !stop
      invariant Complete(UnionOf(sets[..i]), f, calls)
    {
      assert sets[..][..i] == sets[..i];
      calls, stop := IterFresh(sets[..], i, f, calls);
      assert sets[..][..i + 1] == sets[..i + 1];
      if stop {
        return;
      }
    }
    assert sets[..sets.Length] == sets[..];
  }

  /** The iteration over set `i` with a set of the items seen so far; the last set need not be recorded. */
  method IterUnseen<T(!new, ==)>(sets: seq<set<T>>, i: nat, f: Callback<T>, before: seq<T>, known: set<T>)
      returns (calls: seq<T>, stop: bool, seen: set<T>)
    requires i < |sets| && Complete(UnionOf(sets[..i]), f, before) && known == UnionOf(sets[..i])
    ensures if stop then Stopped(UnionOf(sets), f, calls) else Complete(UnionOf(sets[..i + 1]), f, calls)
    ensures !stop && i < |sets| - 1 ==> seen == UnionOf(sets[..i + 1])
  {
    ghost var earlier := UnionOf(sets[..i]);
    UnionMore(sets, i);
    UnionPrefix(sets, i + 1);
    calls, stop, seen := before, false, known;
    var rest := sets[i];
    assert earlier + (sets[i] - rest) == earlier;
    while rest != {}
      invariant rest <= sets[i] && Complete(earlier + (sets[i] - rest), f, calls) && !stop
      invariant seen == if i < |sets| - 1 then earlier + (sets[i] - rest) else earlier
      decreases rest
    {
      var item :| item in rest;
      ghost var pool := earlier + (sets[i] - rest);
      assert earlier + (sets[i] - (rest - {item})) == pool + {item};
      assert item in seen <==> item in earlier;
      rest := rest - {item};
      if i != 0 && item in seen {
        assert pool + {item} == pool;
      } else {
        CallOne(pool, f, calls, item, UnionOf(sets));
        var proceed := f(calls, item);
        calls := calls + [item];
        if !proceed {
          stop := true;
          return;
        }
        if i < |sets| - 1 {
          seen := seen + {item};
        }
      }
    }
    assert earlier + (sets[i] - rest) == UnionOf(sets[..i + 1]);
  }

  /** Five or more sets. */
  method IterMany<T(!new, ==)>(sets: seq<set<T>>, f: Callback<T>) returns (calls: seq<T>, stop: bool)
    ensures Traversed(UnionOf(sets), f, calls, stop)
  {
    var seen: set<T> := {};
    calls, stop := [], false;
    for i := 0 to |sets|
      invariant Complete(UnionOf(sets[..i]), f, calls) && !stop
      invariant i < |sets| ==> seen == UnionOf(sets[..i])
    {
      calls, stop, seen := IterUnseen(sets, i, f, calls, seen);
      if stop {
        return;
      }
    }
    assert sets[..|sets|] == sets;
  }

  /**
    Whichever strategy runs: either `f` accepted all and was called once on each member of the
    union, or it was called on distinct members of it and rejected exactly the last one.
   */
  method IterUnion<T(!new, ==)>(sets: array<set<T>>, f: Callback<T>) returns (calls: seq<T>, stop: bool)
    modifies sets
    ensures Traversed(UnionOf(old(sets[..])), f, calls, stop)
    ensures multiset(sets[..]) == multiset(old(sets[..]))
    ensures if 2 <= sets.Length < 5 then BySize(sets[..]) else sets[..] == old(sets[..])
  {
    if sets.Length == 0 {
      return [], false;
    }
    if sets.Length == 1 {
      UnionMore(sets[..], 0);
      assert sets[..][..1] == sets[..] && UnionOf(sets[..][..0]) == {};
      calls, stop := IterOne(sets[0], f);
      return;
    }
    if sets.Length < 5 {
      calls, stop := IterFew(sets, f);
      return;
    }
    calls, stop := IterMany(sets[..], f);
  }

  /** A complete traversal calls `f` exactly once on each member of the union and on nothing else. */
  lemma ExactlyOnce<T(!new)>(sets: seq<set<T>>, f: Callback<T>, calls: seq<T>)
    requires Complete(UnionOf(sets), f, calls)
    ensures multiset(calls) == multiset(UnionOf(sets))
    ensures |calls| == |UnionOf(sets)|
  {
    forall x ensures multiset(calls)[x] == multiset(UnionOf(sets))[x] { EachOnce(calls, x); }
    assert |multiset(calls)| == |calls|;
  }

  /** A callback that never says stop gets a complete traversal, however the sets are ordered. */
  lemma NeverStops<T(!new)>(sets: seq<set<T>>, f: Callback<T>, calls: seq<T>, stop: bool)
    requires Traversed(UnionOf(sets), f, calls, stop)
    requires forall given, x :: f(given, x)
    ensures !stop && multiset(calls) == multiset(UnionOf(sets))
  {
    assert !Stopped(UnionOf(sets), f, calls) by {
      if calls != [] { assert Accepted(f, calls, |calls| - 1); }
    }
    ExactlyOnce(sets, f, calls);
  }
}
