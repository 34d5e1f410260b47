/**
  The service manager as a state machine. One worker calls it, so operations do not overlap;
  what does overlap is the data plane, which may look at the tables between any two writes.
  The state therefore records every state the tables went through.
 */
module Machine {
  import opened Words
  import opened Services
  import opened Tables
  import opened Writes

  /** Ids 1 .. 65534 are handed out. */
  const ID_LIMIT := 65535

  /**
    `services` and `used` are the manager's own maps and the last state of `trace` is what the
    kernel holds. `trace` and `pool` (every service ever appended, with the id it was given) are
    history. `crashed` is set when the kernel refuses a write: the port iteration then panics.
   */
  datatype State = State(services: map<string, Service>, used: set<U16>, trace: Trace,
                         pool: set<Service>, crashed: bool)
  {
    function Now(): Tables { Last(trace) }
  }

  const INITIAL := State(map[], {}, [EMPTY], {}, false)

  /** The least id from `i` on that is not in use, or `ID_LIMIT` when there is none. */
  function FirstFree(used: set<U16>, i: nat): (r: nat)
    requires i <= ID_LIMIT
    ensures i <= r <= ID_LIMIT
    ensures forall j :: i <= j < r ==> j in used
    ensures r < ID_LIMIT ==> r !in used
    decreases ID_LIMIT - i
  {
    if i == ID_LIMIT || i !in used then i else FirstFree(used, i + 1)
  }

  /** The service with the id an append gives it; unchanged when no id is left. */
  function Assigned(used: set<U16>, svc: Service): Service {
    var free := FirstFree(used, 1);
    if free < ID_LIMIT then svc.(id := free) else svc
  }

  /** The code marks the id the service had before; the repair marks the id it got. */
  function Marked(code: Code, used: set<U16>, svc: Service): set<U16> {
    var free := FirstFree(used, 1);
    if free < ID_LIMIT then used + {if code.Written? then svc.id else free} else used
  }

  function Append(code: Code, s: State, svc: Service, order: seq<Port>): State
    requires |svc.endpoints| < 0x1_0000
  {
    var svc' := Assigned(s.used, svc);
    var r := Perform(s.trace, AppendWrites(svc', order));
    State(if r.done then s.services[svc'.Key() := svc'] else s.services,
          Marked(code, s.used, svc), r.trace, s.pool + {svc'}, !r.done)
  }

  predicate Fitting(s: State) {
    forall key :: key in s.services ==> |s.services[key].endpoints| < 0x1_0000
  }

  function Delete(code: Code, s: State, key: string, order: seq<Port>): State
    requires Fitting(s)
  {
    if key !in s.services then s
    else
      var r := Perform(s.trace, DeleteWrites(code, s.services[key], order));
      s.(services := if r.done then s.services - {key} else s.services, trace := r.trace, crashed := !r.done)
  }

  /** `gone` is the order in which the replaced service's ports are visited, `order` that of the new one's. */
  function Update(code: Code, s: State, svc: Service, gone: seq<Port>, order: seq<Port>): State
    requires Fitting(s) && |svc.endpoints| < 0x1_0000
  {
    if svc.Key() !in s.services then Append(code, s, svc, order)
    else
      var d := Delete(code, s, s.services[svc.Key()].Key(), gone);
      if d.crashed then d else Append(code, d, svc, order)
  }

  datatype Op =
    | UpdateOp(svc: Service, gone: seq<Port>, order: seq<Port>)
    | DeleteOp(key: string, gone: seq<Port>)

  function Step(code: Code, s: State, op: Op): State
    requires Fitting(s) && (op.UpdateOp? ==> |op.svc.endpoints| < 0x1_0000)
  {
    match op
    case UpdateOp(svc, gone, order) => Update(code, s, svc, gone, order)
    case DeleteOp(key, gone) => Delete(code, s, key, gone)
  }

  /** The orders in an operation are iterations over the ports they are meant for. */
  ghost predicate OrdersFit(s: State, op: Op) {
    match op
    case UpdateOp(svc, gone, order) =>
      && Enumerates(order, svc.ports)
      && (svc.Key() in s.services ==> Enumerates(gone, s.services[svc.Key()].ports))
    case DeleteOp(key, gone) =>
      key in s.services ==> Enumerates(gone, s.services[key].ports)
  }

  /** Services come from `NewService`, which leaves the id at 0. */
  predicate Fresh(op: Op) {
    op.UpdateOp? ==> op.svc.id == 0 && WellFormed(op.svc)
  }

  predicate FreshOps(ops: seq<Op>) { forall op :: op in ops ==> Fresh(op) }

  lemma FreshInit(ops: seq<Op>)
    requires FreshOps(ops) && ops != []
    ensures FreshOps(ops[..|ops| - 1]) && Fresh(ops[|ops| - 1])
  {
  }

  /** The state after `ops`; a crash ends the run. */
  function Run(code: Code, ops: seq<Op>): (s: State)
    requires FreshOps(ops)
    ensures Fitting(s)
  {
    if ops == [] then INITIAL
    else
      FreshInit(ops);
      var s := Run(code, ops[..|ops| - 1]);
      if s.crashed then s else Step(code, s, ops[|ops| - 1])
  }

  /** Every operation of the run iterates in an order that fits the state it starts from. */
  ghost predicate RunFits(code: Code, ops: seq<Op>)
    requires FreshOps(ops)
  {
    ops == [] ||
    (FreshInit(ops);
     var s := Run(code, ops[..|ops| - 1]);
     RunFits(code, ops[..|ops| - 1]) && (s.crashed || OrdersFit(s, ops[|ops| - 1])))
  }

  /** The number of updates among `ops`: each appends exactly one service. */
  function Updates(ops: seq<Op>): nat {
    if ops == [] then 0
    else Updates(ops[..|ops| - 1]) + (if ops[|ops| - 1].UpdateOp? then 1 else 0)
  }
}
