/**
 * Runs of the decryptions manager: any interleaving of the lock-atomic calls that the request handlers make,
 * by any users, on any operations.
 */
module OperationRuns {
  import opened Packets
  import opened DecryptionsManager

  datatype Event<X, P> =
    | New(op: Uuid)
    | Prepare(op: Uuid, requester: User, userset: Uuid, ciphertext: X, owners: nat, regs: nat)
    | Participate(op: Uuid, user: User, isOwner: bool)
    | SendPart(op: Uuid, part: P, id: int, isOwner: bool)

  /** The manager, the operations allocated but not prepared, and every record the manager has handed out. */
  datatype System<X, P> = System(
    manager: State<X, P>, reserved: set<Uuid>,
    promoted: seq<(Uuid, PrepareRecord<X>)>, completed: seq<(Uuid, CollectedRecord<P>)>)

  function Initial<X, P>(): System<X, P> { System(State(map[], map[], {}), {}, [], []) }

  /**
   * What the handlers keep to: new IDs are unused, an operation is prepared once by the handler that allocated
   * it and never with both thresholds zero, and parts are sent to operations being collected.
   */
  predicate Allowed<X, P>(s: System<X, P>, e: Event<X, P>) {
    match e
    case New(op) => op !in s.manager.all
    case Prepare(op, _, _, _, owners, regs) => op in s.reserved && (owners > 0 || regs > 0)
    case Participate(_, _, _) => true
    case SendPart(op, _, _, _) => op in s.manager.collected
  }

  function Step<X, P>(s: System<X, P>, e: Event<X, P>): System<X, P>
    requires Allowed(s, e)
  {
    var m := s.manager;
    match e
    case New(op) => s.(manager := m.(all := m.all + {op}), reserved := s.reserved + {op})
    case Prepare(op, requester, userset, ciphertext, owners, regs) =>
      var r := PrepareRecord(requester, userset, ciphertext, owners, regs, {}, {});
      s.(manager := if op in m.prep then m else m.(prep := m.prep[op := r]), reserved := s.reserved - {op})
    case Participate(op, user, isOwner) =>
      var r := Promoted(m, op, user, isOwner);
      s.(manager := AfterParticipant(m, op, user, isOwner),
         promoted := s.promoted + if r.Some? then [(op, r.value)] else [])
    case SendPart(op, part, id, isOwner) =>
      var r := Completed(m, op, part, id, isOwner);
      s.(manager := AfterPart(m, op, part, id, isOwner),
         completed := s.completed + if r.Some? then [(op, r.value)] else [])
  }

  predicate AllowedRun<X, P>(s: System<X, P>, es: seq<Event<X, P>>)
    decreases |es|, 0
  {
    |es| == 0 || (AllowedRun(s, es[..|es| - 1]) && Allowed(Run(s, es[..|es| - 1]), es[|es| - 1]))
  }

  function Run<X, P>(s: System<X, P>, es: seq<Event<X, P>>): System<X, P>
    requires AllowedRun(s, es)
    decreases |es|, 1
  {
    if |es| == 0 then s else Step(Run(s, es[..|es| - 1]), es[|es| - 1])
  }

  // ------------------------------------------------------------------ invariants

  /** At most the required participants of each kind, and at least one kind strictly short. */
  predicate StillPreparing<X>(r: PrepareRecord<X>) {
    && |r.owners| <= r.requiredOwners && |r.regs| <= r.requiredRegs
    && (|r.owners| < r.requiredOwners || |r.regs| < r.requiredRegs)
  }

  predicate ExactlyEnrolled<X>(r: PrepareRecord<X>) {
    |r.owners| == r.requiredOwners && |r.regs| == r.requiredRegs
  }

  predicate PartsMatchIds<P>(r: CollectedRecord<P>) {
    |r.regParts| == |r.regIds| && |r.ownerParts| == |r.ownerIds|
  }

  function Ops<T>(h: seq<(Uuid, T)>): multiset<Uuid> {
    if |h| == 0 then multiset{} else Ops(h[..|h| - 1]) + multiset{h[|h| - 1].0}
  }

  lemma OpsPush<T>(h: seq<(Uuid, T)>, x: (Uuid, T))
    ensures Ops(h + [x]) == Ops(h) + multiset{x.0}
  {
    assert (h + [x])[..|h|] == h;
  }

  /** How far an operation has come. */
  function Phase<X, P>(s: System<X, P>, op: Uuid): nat {
    if op !in s.manager.all then 0
    else if op in s.reserved then 1
    else if op in s.manager.prep then 2
    else if op in s.manager.collected then 3
    else 4
  }

  ghost predicate RecordsFit<X, P>(m: State<X, P>) {
    && (forall op :: op in m.prep ==> StillPreparing(m.prep[op]))
    && (forall op :: op in m.collected ==> PartsMatchIds(m.collected[op]) && !m.collected[op].HasEnoughParts())
  }

  ghost predicate HistoryFits<X, P>(s: System<X, P>) {
    && (forall i :: 0 <= i < |s.promoted| ==> ExactlyEnrolled(s.promoted[i].1))
    && (forall i :: 0 <= i < |s.completed| ==> PartsMatchIds(s.completed[i].1) && s.completed[i].1.HasEnoughParts())
  }

  ghost predicate Disjoint<X, P>(s: System<X, P>) {
    && s.reserved <= s.manager.all && s.manager.prep.Keys <= s.manager.all && s.manager.collected.Keys <= s.manager.all
    && s.reserved !! s.manager.prep.Keys && s.reserved !! s.manager.collected.Keys
    && s.manager.prep.Keys !! s.manager.collected.Keys
  }

  /** Each operation has handed out one prepared record once it is collected, and one collected record once finished. */
  ghost predicate HandedOutOnce<X, P>(s: System<X, P>) {
    forall op :: CountsRight(s, op)
  }

  predicate CountsRight<X, P>(s: System<X, P>, op: Uuid) {
    && Ops(s.promoted)[op] == (if Phase(s, op) >= 3 then 1 else 0)
    && Ops(s.completed)[op] == (if Phase(s, op) == 4 then 1 else 0)
  }

  ghost predicate Invariant<X, P>(s: System<X, P>) {
    RecordsFit(s.manager) && HistoryFits(s) && Disjoint(s) && HandedOutOnce(s)
  }

  lemma InvariantInitially<X, P>()
    ensures Invariant(Initial<X, P>())
  {
  }

  lemma StepDisjoint<X, P>(s: System<X, P>, e: Event<X, P>)
    requires Disjoint(s) && Allowed(s, e)
    ensures Disjoint(Step(s, e))
  {
  }

  lemma StepOther<X, P>(s: System<X, P>, e: Event<X, P>, op: Uuid)
    requires Allowed(s, e) && op != e.op
    ensures Phase(Step(s, e), op) == Phase(s, op)
  {
  }

  lemma StepForward<X, P>(s: System<X, P>, e: Event<X, P>, op: Uuid)
    requires Disjoint(s) && Allowed(s, e)
    ensures Phase(s, op) <= Phase(Step(s, e), op)
  {
    if op == e.op {
      StepPhase(s, e);
    } else {
      StepOther(s, e, op);
    }
  }

  lemma StepRecords<X, P>(s: System<X, P>, e: Event<X, P>)
    requires RecordsFit(s.manager) && Disjoint(s) && Allowed(s, e)
    ensures RecordsFit(Step(s, e).manager)
  {
  }

  lemma RecordHandedOut<X, P>(s: System<X, P>, e: Event<X, P>)
    requires RecordsFit(s.manager) && Allowed(s, e)
    ensures PromotedBy(s, e).Some? ==> ExactlyEnrolled(PromotedBy(s, e).value)
    ensures CompletedBy(s, e).Some? ==>
              PartsMatchIds(CompletedBy(s, e).value) && CompletedBy(s, e).value.HasEnoughParts()
  {
  }

  lemma StepHistory<X, P>(s: System<X, P>, e: Event<X, P>)
    requires HistoryFits(s) && RecordsFit(s.manager) && Allowed(s, e)
    ensures HistoryFits(Step(s, e))
  {
    RecordHandedOut(s, e);
    HistoryStep(s, e);
  }

  /** Exactly when an event moves its operation on: each phase is reached from the one before it. */
  lemma StepPhase<X, P>(s: System<X, P>, e: Event<X, P>)
    requires Disjoint(s) && Allowed(s, e)
    ensures var (before, after) := (Phase(s, e.op), Phase(Step(s, e), e.op));
            match e
            case New(op) => before == 0 && after == 1
            case Prepare(op, _, _, _, _, _) => before == 1 && after == 2
            case Participate(op, user, isOwner) =>
              if Promoted(s.manager, op, user, isOwner).Some? then before == 2 && after == 3 else after == before
            case SendPart(op, part, id, isOwner) =>
              before == 3 && after == if Completed(s.manager, op, part, id, isOwner).Some? then 4 else 3
  {
  }

  function PromotedBy<X, P>(s: System<X, P>, e: Event<X, P>): Option<PrepareRecord<X>> {
    match e
    case Participate(op, user, isOwner) => Promoted(s.manager, op, user, isOwner)
    case _ => None
  }

  function CompletedBy<X, P>(s: System<X, P>, e: Event<X, P>): Option<CollectedRecord<P>>
    requires Allowed(s, e)
  {
    match e
    case SendPart(op, part, id, isOwner) => Completed(s.manager, op, part, id, isOwner)
    case _ => None
  }

  function Entry<T>(op: Uuid, r: Option<T>): seq<(Uuid, T)> {
    if r.Some? then [(op, r.value)] else []
  }

  lemma HistoryStep<X, P>(s: System<X, P>, e: Event<X, P>)
    requires Allowed(s, e)
    ensures Step(s, e).promoted == s.promoted + Entry(e.op, PromotedBy(s, e))
    ensures Step(s, e).completed == s.completed + Entry(e.op, CompletedBy(s, e))
  {
  }

  lemma OpsEntry<T>(h: seq<(Uuid, T)>, op: Uuid, r: Option<T>)
    ensures Ops(h + Entry(op, r)) == Ops(h) + if r.Some? then multiset{op} else multiset{}
  {
    if r.Some? {
      OpsPush(h, (op, r.value));
    } else {
      assert h + [] == h;
    }
  }

  lemma StepHandedOut<X, P>(s: System<X, P>, e: Event<X, P>)
    requires HandedOutOnce(s) && Disjoint(s) && Allowed(s, e)
    ensures HandedOutOnce(Step(s, e))
  {
    StepPhase(s, e);
    HistoryStep(s, e);
    OpsEntry(s.promoted, e.op, PromotedBy(s, e));
    OpsEntry(s.completed, e.op, CompletedBy(s, e));
    forall op ensures CountsRight(Step(s, e), op) {
      assert CountsRight(s, op);
      if op != e.op {
        StepOther(s, e, op);
      }
    }
  }

  /** Every reachable state satisfies the invariant, and no operation moves backwards on the way. */
  lemma {:induction false} RunKeeps<X, P>(s: System<X, P>, es: seq<Event<X, P>>)
    requires Invariant(s) && AllowedRun(s, es)
    ensures Invariant(Run(s, es))
    ensures forall op :: Phase(s, op) <= Phase(Run(s, es), op)
  {
    if |es| == 0 {
    } else {
      var before := es[..|es| - 1];
      RunKeeps(s, before);
      forall op ensures Phase(s, op) <= Phase(Run(s, es), op) {
        StepForward(Run(s, before), es[|es| - 1], op);
      }
      StepDisjoint(Run(s, before), es[|es| - 1]);
      StepRecords(Run(s, before), es[|es| - 1]);
      StepHistory(Run(s, before), es[|es| - 1]);
      StepHandedOut(Run(s, before), es[|es| - 1]);
    }
  }

  /** Over a whole run from the start: phases are never left backwards and each record is handed out at most once. */
  lemma Lifecycle<X, P>(es: seq<Event<X, P>>, op: Uuid)
    requires AllowedRun(Initial(), es)
    ensures var s := Run(Initial(), es);
            && !(op in s.manager.prep && op in s.manager.collected)
            && (op in s.manager.prep || op in s.manager.collected ==> op in s.manager.all)
            && Ops(s.completed)[op] <= Ops(s.promoted)[op] <= 1
            && (op in s.manager.prep ==> Ops(s.promoted)[op] == 0)
            && (op in s.manager.collected ==> Ops(s.promoted)[op] == 1 && Ops(s.completed)[op] == 0)
  {
    InvariantInitially<X, P>();
    RunKeeps(Initial(), es);
    assert CountsRight(Run(Initial(), es), op);
  }

  /** The ordering of the phases by themselves, from any state whose phases are disjoint. */
  lemma {:induction false} RunForward<X, P>(s: System<X, P>, es: seq<Event<X, P>>, op: Uuid)
    requires Disjoint(s) && AllowedRun(s, es)
    ensures Disjoint(Run(s, es)) && Phase(s, op) <= Phase(Run(s, es), op)
  {
    if |es| == 0 {
    } else {
      RunForward(s, es[..|es| - 1], op);
      StepDisjoint(Run(s, es[..|es| - 1]), es[|es| - 1]);
      StepForward(Run(s, es[..|es| - 1]), es[|es| - 1], op);
    }
  }

  // --------------------------------------------------------------- lookups in a run

  /** Live operations are those prepared or being collected. */
  predicate Live<X, P>(s: System<X, P>, op: Uuid) {
    2 <= Phase(s, op) <= 3
  }

  function LiveUserset<X, P>(s: System<X, P>, op: Uuid): Uuid
    requires Live(s, op)
  {
    if op in s.manager.prep then s.manager.prep[op].userset else s.manager.collected[op].userset
  }

  lemma StepUserset<X, P>(s: System<X, P>, e: Event<X, P>, op: Uuid)
    requires Disjoint(s) && Allowed(s, e) && Live(s, op) && Live(Step(s, e), op)
    ensures LiveUserset(s, op) == LiveUserset(Step(s, e), op)
  {
  }

  /**
   * `get_operation_userset` takes its two locks one after the other, with any events in between. For an
   * operation that is live from call to return it still finds the userset, which never changes meanwhile.
   */
  lemma {:induction false} LookupFindsLive<X, P>(s: System<X, P>, es: seq<Event<X, P>>, op: Uuid)
    requires Disjoint(s) && AllowedRun(s, es) && Live(s, op) && Live(Run(s, es), op)
    ensures LiveUserset(Run(s, es), op) == LiveUserset(s, op)
    ensures UsersetOf(s.manager, Run(s, es).manager, op) == Done(LiveUserset(s, op))
  {
    RunForward(s, es, op);
    if |es| == 0 {
    } else {
      var before := es[..|es| - 1];
      RunForward(s, before, op);
      StepForward(Run(s, before), es[|es| - 1], op);
      LookupFindsLive(s, before, op);
      StepUserset(Run(s, before), es[|es| - 1], op);
    }
  }

  /** Looking into the collected records first would miss an operation that is promoted in between. */
  lemma ReversedLookupMisses<X, P>(op: Uuid, requester: User, userset: Uuid, ciphertext: X, helper: User)
    ensures var before: seq<Event<X, P>> := [New(op), Prepare(op, requester, userset, ciphertext, 1, 0)];
            var s: System<X, P> := Initial();
            && AllowedRun(s, before) && AllowedRun(s, before + [Participate(op, helper, true)])
            && Live(Run(s, before), op) && Live(Run(s, before + [Participate(op, helper, true)]), op)
            && op !in Run(s, before).manager.collected
            && op !in Run(s, before + [Participate(op, helper, true)]).manager.prep
  {
    var s: System<X, P> := Initial();
    var a: seq<Event<X, P>> := [New(op)];
    var b: seq<Event<X, P>> := [New(op), Prepare(op, requester, userset, ciphertext, 1, 0)];
    var c := b + [Participate(op, helper, true)];
    assert a[..0] == [] && b[..1] == a && c[..2] == b;
    assert AllowedRun(s, a) && AllowedRun(s, b);
    assert Run(s, b).manager.prep[op] == PrepareRecord(requester, userset, ciphertext, 1, 0, {}, {});
  }
}
