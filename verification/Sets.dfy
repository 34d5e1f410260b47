/**
  The set package: a set changed in place, iteration with early stop and removal, and the
  union traversal with its three strategies. Go leaves the order of iteration open, so every
  loop here picks an arbitrary remaining member.

  A callback may keep state of its own. It is modelled as a function of the items it was given
  before and the item it is given now.
 */
module Sets {

  ghost predicate NoDuplicates<T>(s: seq<T>) {
    forall i, j :: 0 <= i < j < |s| ==> s[i] != s[j]
  }

  lemma NoDuplicatesMore<T>(s: seq<T>, x: T)
    requires NoDuplicates(s) && x !in s
    ensures NoDuplicates(s + [x])
  {
  }

  /** A list without duplicates holds each of its members once. */
  lemma {:induction false} EachOnce<T>(s: seq<T>, x: T)
    requires NoDuplicates(s)
    ensures multiset(s)[x] == if x in s then 1 else 0
  {
    if s != [] {
      var init, last := s[..|s| - 1], s[|s| - 1];
      assert s == init + [last];
      EachOnce(init, x);
      assert last !in init;
    }
  }

  /** `nil`, `RemoveItem`, `StopIteration` and any other error. */
  datatype Answer = Continue | Remove | Stop | Fault

  type Visitor<!T> = (seq<T>, T) -> Answer

  /** What the visitor answered at position `i`. */
  ghost function AnswerAt<T>(visitor: Visitor<T>, visited: seq<T>, i: nat): Answer
    requires i < |visited|
  {
    visitor(visited[..i], visited[i])
  }

  /** The iteration ended before it ran out of members. */
  ghost predicate Ended<T>(visitor: Visitor<T>, visited: seq<T>) {
    visited != [] && AnswerAt(visitor, visited, |visited| - 1) in {Stop, Fault}
  }

  ghost predicate Removed<T>(visitor: Visitor<T>, visited: seq<T>, x: T) {
    exists i :: 0 <= i < |visited| && visited[i] == x && AnswerAt(visitor, visited, i) == Remove
  }

  /**
    `visited` are distinct members; only the last may have been answered with stop or an error;
    unless one was, every member was visited; what is left is exactly what was not removed.
   */
  ghost predicate Iterated<T(!new)>(before: set<T>, visitor: Visitor<T>, visited: seq<T>, after: set<T>) {
    && NoDuplicates(visited)
    && (forall x :: x in visited ==> x in before)
    && (forall i :: 0 <= i < |visited| - 1 ==> AnswerAt(visitor, visited, i) in {Continue, Remove})
    && (!Ended(visitor, visited) ==> forall x :: x in before ==> x in visited)
    && (forall x :: x in after <==> x in before && !Removed(visitor, visited, x))
  }

  /** Mid-iteration: all answers so far let it go on, and `rest` is still to be visited. */
  ghost predicate Iterating<T(!new)>(before: set<T>, visitor: Visitor<T>, visited: seq<T>, after: set<T>, rest: set<T>)
  {
    && NoDuplicates(visited)
    && rest <= before
    && (forall x :: x in visited <==> x in before && x !in rest)
    && (forall i :: 0 <= i < |visited| ==> AnswerAt(visitor, visited, i) in {Continue, Remove})
    && (forall x :: x in after <==> x in before && !Removed(visitor, visited, x))
  }

  lemma RemovedMore<T>(visitor: Visitor<T>, visited: seq<T>, item: T, x: T)
    ensures Removed(visitor, visited + [item], x) <==>
            Removed(visitor, visited, x) || (x == item && visitor(visited, item) == Remove)
  {
    var more := visited + [item];
    assert more[..|visited|] == visited && more[|visited|] == item;
    assert AnswerAt(visitor, more, |visited|) == visitor(visited, item);
    forall i | 0 <= i < |visited| ensures AnswerAt(visitor, more, i) == AnswerAt(visitor, visited, i) {
      assert more[..i] == visited[..i];
    }
    if Removed(visitor, visited, x) {
      var i :| 0 <= i < |visited| && visited[i] == x && AnswerAt(visitor, visited, i) == Remove;
      assert more[i] == x && AnswerAt(visitor, more, i) == Remove;
    }
    if Removed(visitor, more, x) {
      var i :| 0 <= i < |more| && more[i] == x && AnswerAt(visitor, more, i) == Remove;
      if i < |visited| { assert visited[i] == x; }
    }
  }

  lemma AnswersMore<T>(visitor: Visitor<T>, visited: seq<T>, item: T)
    ensures AnswerAt(visitor, visited + [item], |visited|) == visitor(visited, item)
    ensures forall i :: 0 <= i < |visited| ==> AnswerAt(visitor, visited + [item], i) == AnswerAt(visitor, visited, i)
  {
    var more := visited + [item];
    assert more[..|visited|] == visited;
    forall i | 0 <= i < |visited| ensures AnswerAt(visitor, more, i) == AnswerAt(visitor, visited, i) {
      assert more[..i] == visited[..i];
    }
  }

  lemma VisitOne<T(!new)>(before: set<T>, visitor: Visitor<T>, visited: seq<T>, after: set<T>, rest: set<T>, item: T)
    requires Iterating(before, visitor, visited, after, rest) && item in rest
    ensures var answer := visitor(visited, item);
            var after' := if answer == Remove then after - {item} else after;
            if answer in {Stop, Fault} then Iterated(before, visitor, visited + [item], after')
            else Iterating(before, visitor, visited + [item], after', rest - {item})
  {
    NoDuplicatesMore(visited, item);
    AnswersMore(visitor, visited, item);
    forall x ensures Removed(visitor, visited + [item], x) <==>
                     Removed(visitor, visited, x) || (x == item && visitor(visited, item) == Remove)
    {
      RemovedMore(visitor, visited, item, x);
    }
  }

  class Typed<T(==, !new)> {
    var items: set<T>

    constructor ()
      ensures items == {}
    {
      items := {};
    }

    constructor FromArray(members: seq<T>)
      ensures forall x :: x in items <==> x in members
    {
      items := {};
      new;
      AddAll(members);
    }

    function Len(): int
      reads this
    {
      |items|
    }

    predicate Contains(item: T)
      reads this
    {
      item in items
    }

    method Add(item: T)
      modifies this
      ensures items == old(items) + {item}
    {
      items := items + {item};
    }

    method AddAll(members: seq<T>)
      modifies this
      ensures forall x :: x in items <==> x in old(items) || x in members
    {
      for i := 0 to |members|
        invariant forall x :: x in items <==> x in old(items) || x in members[..i]
      {
        Add(members[i]);
        assert members[..i + 1] == members[..i] + [members[i]];
      }
      assert members[..|members|] == members;
    }

    /** `other` may be this very set. */
    method AddSet(other: Typed<T>)
      modifies this
      ensures items == old(items) + old(other.items)
      ensures other != this ==> other.items == old(other.items)
    {
      var rest := other.items;
      while rest != {}
        invariant rest <= old(other.items)
        invariant items == old(items) + (old(other.items) - rest)
        invariant other != this ==> other.items == old(other.items)
        decreases rest
      {
        var item :| item in rest;
        Add(item);
        rest := rest - {item};
      }
    }

    method Discard(item: T)
      modifies this
      ensures items == old(items) - {item}
    {
      items := items - {item};
    }

    method Clear()
      modifies this
      ensures items == {}
    {
      items := {};
    }

    method Iter(visitor: Visitor<T>) returns (ghost visited: seq<T>, panicked: bool)
      modifies this
      ensures Iterated(old(items), visitor, visited, items)
      ensures panicked <==> visited != [] && AnswerAt(visitor, visited, |visited| - 1) == Fault
    {
      var rest := items;
      var seen := [];
      visited, panicked := [], false;
      while rest != {}
        invariant visited == seen && !panicked
        invariant Iterating(old(items), visitor, visited, items, rest)
        decreases rest
      {
        var item :| item in rest;
        VisitOne(old(items), visitor, visited, items, rest, item);
        AnswersMore(visitor, visited, item);
        var answer := visitor(seen, item);
        seen := seen + [item];
        visited := visited + [item];
        rest := rest - {item};
        match answer {
          case Stop => return;
          case Remove => items := items - {item};
          case Continue =>
          case Fault =>
            panicked := true;
            return;
        }
      }
    }

    method Copy() returns (cpy: Typed<T>)
      ensures fresh(cpy) && cpy.items == items
    {
      cpy := new Typed();
      var rest := items;
      while rest != {}
        invariant rest <= items && fresh(cpy) && cpy.items == items - rest
        decreases rest
      {
        var item :| item in rest;
        cpy.Add(item);
        rest := rest - {item};
      }
    }

    method Slice() returns (s: seq<T>)
      ensures NoDuplicates(s) && (forall x :: x in s <==> x in items)
    {
      s := [];
      var rest := items;
      while rest != {}
        invariant rest <= items && NoDuplicates(s)
        invariant forall x :: x in s <==> x in items && x !in rest
        decreases rest
      {
        var item :| item in rest;
        s := s + [item];
        rest := rest - {item};
      }
    }

    /** Equal sizes and one-way membership amount to equality. */
    method Equals(other: Typed<T>) returns (equal: bool)
      ensures equal <==> items == other.items
    {
      if Len() != other.Len() {
        return false;
      }
      var rest := items;
      while rest != {}
        invariant rest <= items && items - rest <= other.items
        decreases rest
      {
        var item :| item in rest;
        if !other.Contains(item) {
          return false;
        }
        rest := rest - {item};
      }
      SubsetOfSameSize(items, other.items);
      return true;
    }

    /** The first missing member stops the iteration. */
    method ContainsAll(other: Typed<T>) returns (result: bool)
      ensures result <==> other.items <= items
    {
      result := true;
      var rest := other.items;
      while rest != {}
        invariant rest <= other.items && other.items - rest <= items
        invariant result
        decreases rest
      {
        var item :| item in rest;
        if !Contains(item) {
          return false;
        }
        rest := rest - {item};
      }
    }
  }

  lemma SubsetOfSameSize<T>(a: set<T>, b: set<T>)
    requires a <= b && |a| == |b|
    ensures a == b
  {
    assert b == a + (b - a);
    assert |b| == |a| + |b - a|;
  }

  /** An iteration that is never told to stop visits each member exactly once. */
  lemma IterVisitsAllOnce<T(!new)>(before: set<T>, visitor: Visitor<T>, visited: seq<T>, after: set<T>)
    requires Iterated(before, visitor, visited, after)
    requires forall given, x :: visitor(given, x) in {Continue, Remove}
    ensures multiset(visited) == multiset(before)
  {
    assert !Ended(visitor, visited);
    forall x ensures multiset(visited)[x] == multiset(before)[x] { EachOnce(visited, x); }
  }
}
