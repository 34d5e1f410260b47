/**
  Which ids services get. With the repair every append gets the least id never used before;
  as written every append gets id 1.
 */
module Ids {
  import opened Words
  import opened Services
  import opened Writes
  import opened Machine

  function FirstIds(m: nat): (ids: set<U16>)
    requires m < ID_LIMIT
    ensures forall j: U16 :: j in ids <==> 1 <= j <= m
  {
    if m == 0 then {} else FirstIds(m - 1) + {m}
  }

  /** `m` appends have used exactly the ids 1 to `m`, one each. */
  ghost predicate RepairedIds(s: State, m: nat) {
    && m < ID_LIMIT
    && s.used == FirstIds(m)
    && (forall a :: a in s.pool ==> a.id in s.used)
    && (forall a, b :: a in s.pool && b in s.pool && a.id == b.id ==> a == b)
  }

  lemma NextId(m: nat)
    requires m < ID_LIMIT
    ensures FirstFree(FirstIds(m), 1) == m + 1
  {
    var ids := FirstIds(m);
    assert m + 1 !in ids;
    assert FirstFree(ids, 1) <= m + 1;
  }

  /** The append that follows `m` others gets id `m + 1`, which no earlier service has. */
  lemma RepairedAppendIds(s: State, svc: Service, order: seq<Port>, m: nat)
    requires RepairedIds(s, m) && m + 1 < ID_LIMIT && |svc.endpoints| < 0x1_0000
    ensures Assigned(s.used, svc).id == m + 1
    ensures forall a :: a in s.pool ==> a.id != m + 1
    ensures RepairedIds(Append(Repaired, s, svc, order), m + 1)
  {
    NextId(m);
    assert FirstIds(m + 1) == FirstIds(m) + {m + 1};
  }

  /** A run of at most 65534 updates: ids are handed out in order and never twice. */
  lemma {:induction false} RepairedRunIds(ops: seq<Op>) returns (m: nat)
    requires FreshOps(ops) && Updates(ops) < ID_LIMIT
    ensures m <= Updates(ops) && RepairedIds(Run(Repaired, ops), m)
    ensures !Run(Repaired, ops).crashed ==> m == Updates(ops)
  {
    if ops == [] {
      m := 0;
      assert FirstIds(0) == {};
    } else {
      FreshInit(ops);
      var init, op := ops[..|ops| - 1], ops[|ops| - 1];
      m := RepairedRunIds(init);
      var s := Run(Repaired, init);
      if !s.crashed { m := RepairedStepIds(s, op, m); }
    }
  }

  lemma RepairedStepIds(s: State, op: Op, m: nat) returns (m': nat)
    requires RepairedIds(s, m) && Fitting(s) && Fresh(op)
    requires op.UpdateOp? ==> m + 1 < ID_LIMIT
    ensures m' <= m + (if op.UpdateOp? then 1 else 0) && RepairedIds(Step(Repaired, s, op), m')
    ensures !Step(Repaired, s, op).crashed && op.UpdateOp? ==> m' == m + 1
    ensures op.DeleteOp? ==> m' == m
  {
    m' := m;
    if op.UpdateOp? {
      var svc := op.svc;
      var d := if svc.Key() in s.services then Delete(Repaired, s, s.services[svc.Key()].Key(), op.gone) else s;
      if svc.Key() !in s.services || !d.crashed {
        RepairedAppendIds(d, svc, op.order, m);
        m' := m + 1;
      }
    }
  }

  /** As written, no id other than 0 is ever marked and every service has id 1. */
  ghost predicate WrittenIds(s: State) {
    s.used <= {0} && forall a :: a in s.pool ==> a.id == 1
  }

  lemma WrittenAppendIds(s: State, svc: Service, order: seq<Port>)
    requires WrittenIds(s) && svc.id == 0 && |svc.endpoints| < 0x1_0000
    ensures Assigned(s.used, svc).id == 1
    ensures WrittenIds(Append(Written, s, svc, order))
  {
    assert FirstFree(s.used, 1) == 1;
  }

  lemma {:induction false} WrittenRunIds(ops: seq<Op>)
    requires FreshOps(ops)
    ensures WrittenIds(Run(Written, ops))
  {
    if ops != [] {
      FreshInit(ops);
      var init, op := ops[..|ops| - 1], ops[|ops| - 1];
      WrittenRunIds(init);
      var s := Run(Written, init);
      if !s.crashed && op.UpdateOp? {
        var svc := op.svc;
        if svc.Key() !in s.services {
          WrittenAppendIds(s, svc, op.order);
        } else {
          var d := Delete(Written, s, s.services[svc.Key()].Key(), op.gone);
          if !d.crashed { WrittenAppendIds(d, svc, op.order); }
        }
      }
    }
  }
}
