/** One operation seen on its own inside a run in which events of all operations interleave. */
module OperationView {
  import opened Ranges
  import opened Packets
  import opened DecryptionsManager
  import opened OperationRuns

  datatype View<X, P> = View(
    prep: Option<PrepareRecord<X>>, collected: Option<CollectedRecord<P>>,
    promoted: seq<PrepareRecord<X>>, completed: seq<CollectedRecord<P>>)

  function RecordsOf<T>(h: seq<(Uuid, T)>, op: Uuid): seq<T> {
    if |h| == 0 then []
    else RecordsOf(h[..|h| - 1], op) + if h[|h| - 1].0 == op then [h[|h| - 1].1] else []
  }

  lemma RecordsOfEntry<T>(h: seq<(Uuid, T)>, op: Uuid, e: Uuid, r: Option<T>)
    ensures RecordsOf(h + Entry(e, r), op) == RecordsOf(h, op) + if e == op then Listed(r) else []
  {
    if r.Some? {
      assert (h + [(e, r.value)])[..|h|] == h;
    } else {
      assert h + [] == h;
    }
  }

  function Listed<T>(r: Option<T>): seq<T> { if r.Some? then [r.value] else [] }

  function ViewOf<X, P>(s: System<X, P>, op: Uuid): View<X, P> {
    View(if op in s.manager.prep then Some(s.manager.prep[op]) else None,
         if op in s.manager.collected then Some(s.manager.collected[op]) else None,
         RecordsOf(s.promoted, op), RecordsOf(s.completed, op))
  }

  /** The effect of one of its own events on an operation. */
  function ViewStep<X, P>(v: View<X, P>, e: Event<X, P>): View<X, P> {
    match e
    case New(_) => v
    case Prepare(_, requester, userset, ciphertext, owners, regs) =>
      v.(prep := Some(PrepareRecord(requester, userset, ciphertext, owners, regs, {}, {})))
    case Participate(_, user, isOwner) =>
      if v.prep.None? || Enrolment(v.prep.value, isOwner).NotRequired? then v
      else
        var r := Enrolled(v.prep.value, user, isOwner);
        if r.HasEnoughParticipants() then View(None, Some(Opened(r)), v.promoted + [r], v.completed)
        else v.(prep := Some(r))
    case SendPart(_, part, id, isOwner) =>
      if v.collected.None? then v
      else
        var r := WithPart(v.collected.value, part, id, isOwner);
        if r.HasEnoughParts() then v.(collected := None, completed := v.completed + [r])
        else v.(collected := Some(r))
  }

  function ViewRun<X, P>(v: View<X, P>, es: seq<Event<X, P>>): View<X, P> {
    if |es| == 0 then v else ViewStep(ViewRun(v, es[..|es| - 1]), es[|es| - 1])
  }

  /** A volunteer that changes nothing: one who comes too late, or who already takes part in that layer. */
  ghost predicate Idle<X, P>(v: View<X, P>, e: Event<X, P>) {
    e.Participate? && ViewStep(v, e) == v
  }

  /** The events of a run that concern one operation, without the volunteers that change nothing. */
  ghost function EventsOf<X, P>(s: System<X, P>, es: seq<Event<X, P>>, op: Uuid): seq<Event<X, P>>
    requires AllowedRun(s, es)
  {
    if |es| == 0 then []
    else
      var before, e := es[..|es| - 1], es[|es| - 1];
      EventsOf(s, before, op) + if e.op == op && !Idle(ViewOf(Run(s, before), op), e) then [e] else []
  }

  /** While an operation is prepared, exactly these volunteers change nothing. */
  lemma IdleExactly<X, P>(v: View<X, P>, op: Uuid, user: User, isOwner: bool)
    requires v.prep.Some? ==> StillPreparing(v.prep.value)
    ensures Idle(v, Participate(op, user, isOwner)) <==>
              v.prep.None? || match Enrolment(v.prep.value, isOwner)
                              case OwnerPart => user in v.prep.value.owners
                              case RegPart => user in v.prep.value.regs
                              case NotRequired => true
  {
    if v.prep.Some? && !Enrolment(v.prep.value, isOwner).NotRequired? {
      SameRecord(v.prep.value, user, isOwner);
      IdleSame(v, op, user, isOwner);
    }
  }

  lemma SameRecord<X>(r: PrepareRecord<X>, user: User, isOwner: bool)
    requires !Enrolment(r, isOwner).NotRequired?
    ensures Enrolled(r, user, isOwner) == r <==>
              user in if Enrolment(r, isOwner).OwnerPart? then r.owners else r.regs
  {
    assert r.owners + {user} == r.owners <==> user in r.owners;
    assert r.regs + {user} == r.regs <==> user in r.regs;
  }

  lemma IdleSame<X, P>(v: View<X, P>, op: Uuid, user: User, isOwner: bool)
    requires v.prep.Some? && StillPreparing(v.prep.value) && !Enrolment(v.prep.value, isOwner).NotRequired?
    ensures Idle(v, Participate(op, user, isOwner)) <==> Enrolled(v.prep.value, user, isOwner) == v.prep.value
  {
    assert !v.prep.value.HasEnoughParticipants();
  }

  lemma StepView<X, P>(s: System<X, P>, e: Event<X, P>, op: Uuid)
    requires Disjoint(s) && Allowed(s, e)
    ensures ViewOf(Step(s, e), op) == if e.op == op then ViewStep(ViewOf(s, op), e) else ViewOf(s, op)
  {
    HistoryStep(s, e);
    RecordsOfEntry(s.promoted, op, e.op, PromotedBy(s, e));
    RecordsOfEntry(s.completed, op, e.op, CompletedBy(s, e));
    if e.op == op {
      OwnEntries(s, e);
      OwnHistory(s, e);
    } else {
      OtherEntries(s, e, op);
    }
  }

  lemma OtherEntries<X, P>(s: System<X, P>, e: Event<X, P>, op: Uuid)
    requires Allowed(s, e) && op != e.op
    ensures ViewOf(Step(s, e), op).prep == ViewOf(s, op).prep
    ensures ViewOf(Step(s, e), op).collected == ViewOf(s, op).collected
  {
    match e {
      case New(_) =>
      case Prepare(_, _, _, _, _, _) =>
      case Participate(_, _, _) =>
      case SendPart(_, _, _, _) =>
    }
  }

  lemma OwnEntries<X, P>(s: System<X, P>, e: Event<X, P>)
    requires Disjoint(s) && Allowed(s, e)
    ensures ViewOf(Step(s, e), e.op).prep == ViewStep(ViewOf(s, e.op), e).prep
    ensures ViewOf(Step(s, e), e.op).collected == ViewStep(ViewOf(s, e.op), e).collected
  {
    match e {
      case New(_) =>
      case Prepare(_, _, _, _, _, _) =>
      case Participate(_, _, _) =>
      case SendPart(_, _, _, _) =>
    }
  }

  lemma OwnHistory<X, P>(s: System<X, P>, e: Event<X, P>)
    requires Allowed(s, e)
    ensures ViewStep(ViewOf(s, e.op), e).promoted == ViewOf(s, e.op).promoted + Listed(PromotedBy(s, e))
    ensures ViewStep(ViewOf(s, e.op), e).completed == ViewOf(s, e.op).completed + Listed(CompletedBy(s, e))
  {
    var v := ViewOf(s, e.op);
    assert v.promoted + [] == v.promoted && v.completed + [] == v.completed;
  }

  /** A run with one more event. */
  lemma RunPush<X, P>(s: System<X, P>, es: seq<Event<X, P>>, e: Event<X, P>, op: Uuid)
    requires AllowedRun(s, es) && Allowed(Run(s, es), e)
    ensures AllowedRun(s, es + [e]) && Run(s, es + [e]) == Step(Run(s, es), e)
    ensures EventsOf(s, es + [e], op)
         == EventsOf(s, es, op) + if e.op == op && !Idle(ViewOf(Run(s, es), op), e) then [e] else []
  {
    assert (es + [e])[..|es|] == es;
  }

  /** Whatever happens to other operations in between, an operation only sees its own events. */
  lemma {:induction false} RunView<X, P>(s: System<X, P>, es: seq<Event<X, P>>, op: Uuid)
    requires Disjoint(s) && AllowedRun(s, es)
    ensures ViewOf(Run(s, es), op) == ViewRun(ViewOf(s, op), EventsOf(s, es, op))
  {
    if |es| == 0 {
    } else {
      var before, e := es[..|es| - 1], es[|es| - 1];
      RunView(s, before, op);
      RunForward(s, before, op);
      StepView(Run(s, before), e, op);
      var own := EventsOf(s, before, op);
      if e.op == op && !Idle(ViewOf(Run(s, before), op), e) {
        assert EventsOf(s, es, op)[..|own|] == own;
      } else {
        assert EventsOf(s, es, op) == own;
      }
    }
  }

  lemma {:induction false} ViewRunConcat<X, P>(v: View<X, P>, a: seq<Event<X, P>>, b: seq<Event<X, P>>)
    ensures ViewRun(v, a + b) == ViewRun(ViewRun(v, a), b)
  {
    if |b| == 0 {
      assert a + b == a;
    } else {
      ViewRunConcat(v, a, b[..|b| - 1]);
      assert (a + b)[..|a + b| - 1] == a + b[..|b| - 1];
    }
  }

  // ------------------------------------------------------------------- enrolment

  function Enrolments<X, P>(op: Uuid, users: seq<User>, owners: set<User>): (es: seq<Event<X, P>>)
    ensures |es| == |users|
  {
    seq(|users|, i requires 0 <= i < |users| => Participate(op, users[i], users[i] in owners))
  }

  /** These users, in some order: the helpers of both layers, each once. */
  ghost predicate Helpers(users: seq<User>, owners: set<User>, regs: set<User>) {
    Distinct(users) && Elements(users) == owners + regs && owners !! regs
  }

  lemma PartSizes(users: seq<User>, owners: set<User>, regs: set<User>, k: nat)
    requires Helpers(users, owners, regs) && k <= |users|
    ensures var seen := Elements(users[..k]);
            && (|owners * seen| >= |owners| && |regs * seen| >= |regs| <==> k == |users|)
            && (k == |users| ==> owners * seen == owners && regs * seen == regs)
            && |owners * seen| <= |owners| && |regs * seen| <= |regs|
            && (k < |users| ==> users[k] !in seen)
  {
    var seen := Elements(users[..k]);
    assert |owners - seen| == |owners| - |owners * seen|;
    assert |regs - seen| == |regs| - |regs * seen|;
    if k < |users| {
      assert users[k] in Elements(users);
      assert users[k] !in seen;
      assert users[k] in owners - seen || users[k] in regs - seen;
    } else {
      assert users[..k] == users;
    }
  }

  /** The record after those of its future helpers that are among the given users have enrolled. */
  function Filled<X>(r: PrepareRecord<X>, owners: set<User>, regs: set<User>, users: seq<User>): PrepareRecord<X> {
    r.(owners := owners * Elements(users), regs := regs * Elements(users))
  }

  lemma FilledEnough<X>(r: PrepareRecord<X>, owners: set<User>, regs: set<User>, users: seq<User>, k: nat)
    requires r.requiredOwners == |owners| && r.requiredRegs == |regs| && Helpers(users, owners, regs) && k <= |users|
    ensures Filled(r, owners, regs, users[..k]).HasEnoughParticipants() <==> k == |users|
    ensures k == |users| ==> Filled(r, owners, regs, users[..k]) == r.(owners := owners, regs := regs)
  {
    PartSizes(users, owners, regs, k);
  }

  lemma EnrolOne<X>(r: PrepareRecord<X>, owners: set<User>, regs: set<User>, users: seq<User>, k: nat)
    requires r.requiredOwners == |owners| && r.requiredRegs == |regs| && Helpers(users, owners, regs) && k < |users|
    ensures var now := Filled(r, owners, regs, users[..k]);
            && !Enrolment(now, users[k] in owners).NotRequired?
            && Enrolled(now, users[k], users[k] in owners) == Filled(r, owners, regs, users[..k + 1])
  {
    RoomLeft(users, owners, regs, k);
    SeenGrows(users, k, owners);
    SeenGrows(users, k, regs);
  }

  lemma RoomLeft(users: seq<User>, owners: set<User>, regs: set<User>, k: nat)
    requires Helpers(users, owners, regs) && k < |users|
    ensures users[k] in owners || users[k] in regs
    ensures users[k] in owners ==> |owners * Elements(users[..k])| < |owners|
    ensures users[k] in regs ==> |regs * Elements(users[..k])| < |regs|
  {
    var seen, h := Elements(users[..k]), users[k];
    PartSizes(users, owners, regs, k);
    assert h in Elements(users);
    assert |owners - seen| == |owners| - |owners * seen|;
    assert |regs - seen| == |regs| - |regs * seen|;
    assert h in owners ==> h in owners - seen;
    assert h in regs ==> h in regs - seen;
  }

  lemma SeenGrows(users: seq<User>, k: nat, s: set<User>)
    requires k < |users|
    ensures users[k] in s ==> s * Elements(users[..k + 1]) == s * Elements(users[..k]) + {users[k]}
    ensures users[k] !in s ==> s * Elements(users[..k + 1]) == s * Elements(users[..k])
  {
    assert users[..k + 1] == users[..k] + [users[k]];
    ElementsPush(users[..k], users[k]);
  }

  lemma EnrolmentStep<X, P>(op: Uuid, r: PrepareRecord<X>, users: seq<User>, owners: set<User>, regs: set<User>, k: nat)
    requires r.requiredOwners == |owners| && r.requiredRegs == |regs| && Helpers(users, owners, regs) && k < |users|
    ensures var v: View<X, P> := View(Some(Filled(r, owners, regs, users[..k])), None, [], []);
            var now := Filled(r, owners, regs, users[..k + 1]);
            ViewStep(v, Participate(op, users[k], users[k] in owners))
            == if k + 1 < |users| then View(Some(now), None, [], []) else View(None, Some(Opened(now)), [now], [])
  {
    EnrolOne(r, owners, regs, users, k);
    FilledEnough(r, owners, regs, users, k + 1);
    ViewEnrols<X, P>(op, Filled(r, owners, regs, users[..k]), Filled(r, owners, regs, users[..k + 1]), users[k],
                     users[k] in owners);
  }

  lemma ViewEnrols<X, P>(op: Uuid, now: PrepareRecord<X>, next: PrepareRecord<X>, user: User, isOwner: bool)
    requires !Enrolment(now, isOwner).NotRequired? && Enrolled(now, user, isOwner) == next
    ensures var v: View<X, P> := View(Some(now), None, [], []);
            ViewStep(v, Participate(op, user, isOwner))
            == if next.HasEnoughParticipants() then View(None, Some(Opened(next)), [next], [])
               else View(Some(next), None, [], [])
  {
    assert [] + [next] == [next];
  }

  /** While helpers enrol, the record fills; the last one of them has it handed out, complete. */
  lemma {:induction false} EnrolmentRun<X, P>(
    v: View<X, P>, op: Uuid, r: PrepareRecord<X>, users: seq<User>, owners: set<User>, regs: set<User>, k: nat)
    requires v == View(Some(r), None, [], []) && r.owners == {} && r.regs == {}
    requires r.requiredOwners == |owners| && r.requiredRegs == |regs| && Helpers(users, owners, regs)
    requires 0 < |users| && k <= |users|
    ensures var now := Filled(r, owners, regs, users[..k]);
            ViewRun(v, Enrolments(op, users[..k], owners))
            == if k < |users| then View(Some(now), None, [], []) else View(None, Some(Opened(now)), [now], [])
  {
    if k == 0 {
      assert Filled(r, owners, regs, users[..0]) == r;
    } else {
      EnrolmentRun(v, op, r, users, owners, regs, k - 1);
      EnrolmentsPush(v, op, users, owners, k - 1);
      EnrolmentStep<X, P>(op, r, users, owners, regs, k - 1);
    }
  }

  lemma EnrolmentsPush<X, P>(v: View<X, P>, op: Uuid, users: seq<User>, owners: set<User>, k: nat)
    requires k < |users|
    ensures ViewRun(v, Enrolments(op, users[..k + 1], owners))
         == ViewStep(ViewRun(v, Enrolments(op, users[..k], owners)), Participate(op, users[k], users[k] in owners))
  {
    assert Enrolments<X, P>(op, users[..k + 1], owners)[..k] == Enrolments(op, users[..k], owners);
  }

  // ------------------------------------------------------------------ collection

  /** A part and who sent it. */
  datatype Send<P> = Send(user: User, part: P)

  function Senders<P>(sends: seq<Send<P>>): (r: seq<User>)
    ensures |r| == |sends| && forall i :: 0 <= i < |sends| ==> r[i] == sends[i].user
  {
    seq(|sends|, i requires 0 <= i < |sends| => sends[i].user)
  }

  function Parts<X, P>(op: Uuid, sends: seq<Send<P>>, roles: set<User>, id: User -> int): (es: seq<Event<X, P>>)
    ensures |es| == |sends|
  {
    seq(|sends|, i requires 0 <= i < |sends| =>
          SendPart(op, sends[i].part, id(sends[i].user), sends[i].user in roles))
  }

  /** What these helpers send in this order, each its part. */
  function ByHelpers<P>(users: seq<User>, part: User -> P): (r: seq<Send<P>>)
    ensures |r| == |users| && Senders(r) == users
  {
    var r := seq(|users|, i requires 0 <= i < |users| => Send(users[i], part(users[i])));
    assert Senders(r) == users;
    r
  }

  /** The users of a sequence that belong to the set, in order. */
  function Chosen(users: seq<User>, s: set<User>): seq<User> {
    if |users| == 0 then []
    else Chosen(users[..|users| - 1], s) + if users[|users| - 1] in s then [users[|users| - 1]] else []
  }

  lemma {:induction false} ChosenSet(users: seq<User>, s: set<User>)
    requires Distinct(users)
    ensures Distinct(Chosen(users, s)) && Elements(Chosen(users, s)) == s * Elements(users)
  {
    if |users| == 0 {
    } else {
      var t, u := users[..|users| - 1], users[|users| - 1];
      ChosenSet(t, s);
      assert users == t + [u];
      ElementsPush(t, u);
      if u in s {
        ChosenPush(Chosen(t, s), s * Elements(t), u);
        assert s * Elements(users) == s * Elements(t) + {u};
      } else {
        assert Chosen(users, s) == Chosen(t, s);
        assert s * Elements(users) == s * Elements(t);
      }
    }
  }

  lemma ChosenElements(users: seq<User>, s: set<User>)
    requires Distinct(users)
    ensures Elements(Chosen(users, s)) == s * Elements(users)
    ensures Distinct(Chosen(users, s)) && |Chosen(users, s)| == |s * Elements(users)|
  {
    ChosenSet(users, s);
    DistinctBySize(Chosen(users, s));
  }

  lemma ChosenPush(c: seq<User>, s: set<User>, u: User)
    requires Distinct(c) && Elements(c) == s && u !in s
    ensures Distinct(c + [u]) && Elements(c + [u]) == s + {u}
  {
    ElementsPush(c, u);
    assert forall x :: x in c ==> x in Elements(c);
  }

  /** The parts that members of the set sent, in order. */
  function PartsIn<P>(sends: seq<Send<P>>, s: set<User>): seq<P> {
    if |sends| == 0 then []
    else
      var last := sends[|sends| - 1];
      PartsIn(sends[..|sends| - 1], s) + if last.user in s then [last.part] else []
  }

  lemma SendersPrefix<P>(sends: seq<Send<P>>, k: nat)
    requires k <= |sends|
    ensures Senders(sends[..k]) == Senders(sends)[..k]
  {
  }

  lemma {:induction false} PartsInSize<P>(sends: seq<Send<P>>, s: set<User>)
    ensures |PartsIn(sends, s)| == |Chosen(Senders(sends), s)|
  {
    if |sends| == 0 {
    } else {
      PartsInSize(sends[..|sends| - 1], s);
      SendersPrefix(sends, |sends| - 1);
    }
  }

  lemma {:induction false} PartsInByHelpers<P>(users: seq<User>, part: User -> P, s: set<User>)
    ensures PartsIn(ByHelpers(users, part), s) == Map(part, Chosen(users, s))
  {
    if |users| == 0 {
    } else {
      var t, u := users[..|users| - 1], users[|users| - 1];
      PartsInByHelpers(t, part, s);
      assert ByHelpers(users, part)[..|t|] == ByHelpers(t, part);
      MapPush(part, Chosen(t, s), u);
      assert Chosen(t, s) + [] == Chosen(t, s);
    }
  }

  /** The record with these parts filed by the senders' roles. */
  function Gathered<P>(r: CollectedRecord<P>, sends: seq<Send<P>>, owners: set<User>, regs: set<User>, id: User -> int)
    : CollectedRecord<P>
  {
    r.(ownerParts := PartsIn(sends, owners), ownerIds := Map(id, Chosen(Senders(sends), owners)),
       regParts := PartsIn(sends, regs), regIds := Map(id, Chosen(Senders(sends), regs)))
  }

  lemma ChosenOne(users: seq<User>, u: User, s: set<User>, id: User -> int)
    ensures Map(id, Chosen(users + [u], s)) == if u in s then Map(id, Chosen(users, s)) + [id(u)]
                                               else Map(id, Chosen(users, s))
  {
    assert (users + [u])[..|users|] == users;
    MapPush(id, Chosen(users, s), u);
    assert Chosen(users, s) + [] == Chosen(users, s);
  }

  lemma PartsInOne<P>(sends: seq<Send<P>>, x: Send<P>, s: set<User>)
    ensures PartsIn(sends + [x], s) == if x.user in s then PartsIn(sends, s) + [x.part] else PartsIn(sends, s)
  {
    assert (sends + [x])[..|sends|] == sends;
    assert PartsIn(sends, s) + [] == PartsIn(sends, s);
  }

  lemma GatherOne<P>(r: CollectedRecord<P>, sends: seq<Send<P>>, x: Send<P>, owners: set<User>, regs: set<User>,
                     id: User -> int)
    requires x.user in owners + regs && owners !! regs
    ensures WithPart(Gathered(r, sends, owners, regs, id), x.part, id(x.user), x.user in owners)
         == Gathered(r, sends + [x], owners, regs, id)
  {
    assert Senders(sends + [x]) == Senders(sends) + [x.user];
    ChosenOne(Senders(sends), x.user, owners, id);
    ChosenOne(Senders(sends), x.user, regs, id);
    PartsInOne(sends, x, owners);
    PartsInOne(sends, x, regs);
  }

  lemma MapPush<T, U>(f: T -> U, s: seq<T>, x: T)
    ensures Map(f, s + [x]) == Map(f, s) + [f(x)]
  {
  }

  lemma EnoughWhenAll<P>(r: CollectedRecord<P>, users: seq<User>, k: nat, owners: set<User>, regs: set<User>)
    requires r.requiredOwners == |owners| && r.requiredRegs == |regs| && Helpers(users, owners, regs) && k <= |users|
    ensures Suffices(r, users[..k], owners, regs) <==> k == |users|
  {
    PartSizes(users, owners, regs, k);
    ChosenElements(users[..k], owners);
    ChosenElements(users[..k], regs);
  }

  predicate NothingYet<P>(r: CollectedRecord<P>) {
    |r.regParts| == |r.ownerParts| == 0 && |r.regIds| == |r.ownerIds| == 0
  }

  /** Enough of these senders are owners, and enough are others. */
  predicate Suffices<P>(r: CollectedRecord<P>, users: seq<User>, roles: set<User>, others: set<User>) {
    |Chosen(users, roles)| >= r.requiredOwners && |Chosen(users, others)| >= r.requiredRegs
  }

  /** How many of these senders it takes until enough of both kinds are there; 0 if they do not suffice. */
  function FirstEnough<P>(r: CollectedRecord<P>, users: seq<User>, roles: set<User>, others: set<User>): nat {
    if |users| == 0 then 0
    else
      var j := FirstEnough(r, users[..|users| - 1], roles, others);
      if j > 0 then j else if Suffices(r, users, roles, others) then |users| else 0
  }

  lemma {:induction false} FirstEnoughCorrect<P>(r: CollectedRecord<P>, users: seq<User>, roles: set<User>,
                                                 others: set<User>)
    requires r.requiredOwners > 0 || r.requiredRegs > 0
    ensures var j := FirstEnough(r, users, roles, others);
            && j <= |users| && (j == 0 <==> !Suffices(r, users, roles, others))
            && (j > 0 ==> Suffices(r, users[..j], roles, others) && !Suffices(r, users[..j - 1], roles, others))
  {
    if |users| == 0 {
    } else {
      var t, u := users[..|users| - 1], users[|users| - 1];
      FirstEnoughCorrect(r, t, roles, others);
      assert users == t + [u] && users[..|users|] == users;
      var j := FirstEnough(r, t, roles, others);
      if j > 0 {
        SufficesStill(r, t, u, roles, others);
        assert t[..j] == users[..j] && t[..j - 1] == users[..j - 1];
      }
    }
  }

  /** The records of an operation after these parts. */
  function PartsOutcome<X, P>(v: View<X, P>, r: CollectedRecord<P>, sends: seq<Send<P>>, roles: set<User>,
                              others: set<User>, id: User -> int): View<X, P>
  {
    var j := FirstEnough(r, Senders(sends), roles, others);
    if j == 0 || j > |sends| then v.(collected := Some(Gathered(r, sends, roles, others, id)))
    else v.(collected := None, completed := v.completed + [Gathered(r, sends[..j], roles, others, id)])
  }

  lemma SufficesStill<P>(r: CollectedRecord<P>, users: seq<User>, u: User, roles: set<User>, others: set<User>)
    requires Suffices(r, users, roles, others)
    ensures Suffices(r, users + [u], roles, others)
  {
    assert (users + [u])[..|users|] == users;
  }

  lemma EnoughGathered<P>(r: CollectedRecord<P>, sends: seq<Send<P>>, roles: set<User>, others: set<User>,
                          id: User -> int)
    ensures Gathered(r, sends, roles, others, id).HasEnoughParts() <==> Suffices(r, Senders(sends), roles, others)
  {
    PartsInSize(sends, roles);
    PartsInSize(sends, others);
  }

  /** One more part, while the record is not handed out yet. */
  lemma PartsStep<X, P>(v: View<X, P>, op: Uuid, r: CollectedRecord<P>, sends: seq<Send<P>>, x: Send<P>,
                        roles: set<User>, others: set<User>, id: User -> int)
    requires x.user in roles + others && roles !! others
    ensures var now := Gathered(r, sends + [x], roles, others, id);
            ViewStep(v.(collected := Some(Gathered(r, sends, roles, others, id))),
                     SendPart(op, x.part, id(x.user), x.user in roles))
            == if Suffices(r, Senders(sends + [x]), roles, others) then
                 v.(collected := None, completed := v.completed + [now])
               else v.(collected := Some(now))
  {
    GatherOne(r, sends, x, roles, others, id);
    EnoughGathered(r, sends + [x], roles, others, id);
  }

  lemma OutcomeStep<X, P>(v: View<X, P>, op: Uuid, r: CollectedRecord<P>, sends: seq<Send<P>>, x: Send<P>,
                          roles: set<User>, others: set<User>, id: User -> int)
    requires (r.requiredOwners > 0 || r.requiredRegs > 0) && x.user in roles + others && roles !! others
    ensures ViewStep(PartsOutcome(v, r, sends, roles, others, id), SendPart(op, x.part, id(x.user), x.user in roles))
         == PartsOutcome(v, r, sends + [x], roles, others, id)
  {
    var users, all := Senders(sends), Senders(sends + [x]);
    assert all == users + [x.user] && all[..|users|] == users && (sends + [x])[..|sends| + 1] == sends + [x];
    var j := FirstEnough(r, users, roles, others);
    FirstEnoughCorrect(r, users, roles, others);
    if j == 0 {
      PartsStep(v, op, r, sends, x, roles, others, id);
    } else {
      assert sends[..j] == (sends + [x])[..j];
    }
  }

  lemma {:induction false} PartsRunOutcome<X, P>(
    v: View<X, P>, op: Uuid, r: CollectedRecord<P>, sends: seq<Send<P>>, roles: set<User>, others: set<User>,
    id: User -> int)
    requires v.collected == Some(r) && NothingYet(r) && (r.requiredOwners > 0 || r.requiredRegs > 0)
    requires Elements(Senders(sends)) <= roles + others && roles !! others
    ensures ViewRun(v, Parts(op, sends, roles, id)) == PartsOutcome(v, r, sends, roles, others, id)
  {
    if |sends| == 0 {
      assert Gathered(r, sends, roles, others, id) == r;
    } else {
      var t, x := sends[..|sends| - 1], sends[|sends| - 1];
      assert sends == t + [x] && Senders(sends) == Senders(t) + [x.user];
      ElementsPush(Senders(t), x.user);
      PartsRunOutcome(v, op, r, t, roles, others, id);
      assert Parts<X, P>(op, sends, roles, id)[..|t|] == Parts(op, t, roles, id);
      OutcomeStep(v, op, r, t, x, roles, others, id);
    }
  }

  /**
   * Whoever sends parts, in any order and however often: they are gathered by the senders' roles, and the record
   * is handed out with the j-th part exactly if that is the first one with which enough of both kinds are there.
   */
  lemma PartsRun<X, P>(
    v: View<X, P>, op: Uuid, r: CollectedRecord<P>, sends: seq<Send<P>>, roles: set<User>, others: set<User>,
    id: User -> int) returns (j: nat)
    requires v.collected == Some(r) && NothingYet(r) && (r.requiredOwners > 0 || r.requiredRegs > 0)
    requires Elements(Senders(sends)) <= roles + others && roles !! others
    ensures j <= |sends| && (j == 0 <==> !Suffices(r, Senders(sends), roles, others))
    ensures j > 0 ==>
              Suffices(r, Senders(sends[..j]), roles, others) && !Suffices(r, Senders(sends[..j - 1]), roles, others)
    ensures ViewRun(v, Parts(op, sends, roles, id))
         == if j == 0 then v.(collected := Some(Gathered(r, sends, roles, others, id)))
            else v.(collected := None, completed := v.completed + [Gathered(r, sends[..j], roles, others, id)])
  {
    j := FirstEnough(r, Senders(sends), roles, others);
    FirstEnoughCorrect(r, Senders(sends), roles, others);
    PartsRunOutcome(v, op, r, sends, roles, others, id);
    if j > 0 {
      SendersPrefix(sends, j);
      SendersPrefix(sends, j - 1);
    }
  }

  /** Parts are gathered by layer in order of arrival; the last helper's part has the record handed out. */
  lemma CollectionRun<X, P>(
    v: View<X, P>, op: Uuid, r: CollectedRecord<P>, sends: seq<Send<P>>, owners: set<User>, regs: set<User>,
    id: User -> int, k: nat)
    requires v.collected == Some(r) && NothingYet(r)
    requires r.requiredOwners == |owners| && r.requiredRegs == |regs| && Helpers(Senders(sends), owners, regs)
    requires 0 < |sends| && k <= |sends|
    ensures var w := ViewRun(v, Parts(op, sends[..k], owners, id));
            var now := Gathered(r, sends[..k], owners, regs, id);
            w == if k < |sends| then v.(collected := Some(now))
                 else v.(collected := None, completed := v.completed + [now])
  {
    var users := Senders(sends);
    SendersPrefix(sends, k);
    PrefixElements(users, k);
    EnoughWhenAll(r, users, 0, owners, regs);
    var j := PartsRun(v, op, r, sends[..k], owners, regs, id);
    EnoughWhenAll(r, users, k, owners, regs);
    if j > 0 {
      assert sends[..k][..j] == sends[..j];
      SendersPrefix(sends, j);
      EnoughWhenAll(r, users, j, owners, regs);
    }
  }

  lemma PrefixElements(users: seq<User>, k: nat)
    requires k <= |users|
    ensures Elements(users[..k]) <= Elements(users)
  {
  }

  /**
   * When each helper sends once, and nobody else does, the record is handed out if and only if no helper of the
   * regular layer has the owner's role: an owner's part is always filed under the owner layer.
   */
  lemma CompletesExactly<X, P>(
    v: View<X, P>, op: Uuid, r: CollectedRecord<P>, sends: seq<Send<P>>, owners: set<User>, regs: set<User>,
    roles: set<User>, id: User -> int)
    requires v.collected == Some(r) && NothingYet(r) && owners <= roles
    requires r.requiredOwners == |owners| && r.requiredRegs == |regs| && owners + regs != {}
    requires Distinct(Senders(sends)) && Elements(Senders(sends)) == owners + regs
    ensures |ViewRun(v, Parts(op, sends, roles, id)).completed| == |v.completed| + 1 <==> regs !! roles
  {
    RolesCount(Senders(sends), owners, regs, roles);
    NonZeroSizes(owners, regs);
    var j := PartsRun(v, op, r, sends, roles, regs - roles, id);
  }

  lemma NonZeroSizes(a: set<User>, b: set<User>)
    ensures a + b != {} <==> |a| > 0 || |b| > 0
  {
    assert |a| == 0 <==> a == {};
    assert |b| == 0 <==> b == {};
  }

  lemma RolesCount(users: seq<User>, owners: set<User>, regs: set<User>, roles: set<User>)
    requires Distinct(users) && Elements(users) == owners + regs && owners <= roles
    ensures Elements(users) <= roles + (regs - roles)
    ensures |Chosen(users, roles)| >= |owners|
    ensures |Chosen(users, regs - roles)| >= |regs| <==> regs !! roles
  {
    ChosenElements(users, roles);
    ChosenElements(users, regs - roles);
    RolesSets(Elements(users), owners, regs, roles);
    SubsetSize(owners, roles * Elements(users));
  }

  lemma RolesSets(all: set<User>, owners: set<User>, regs: set<User>, roles: set<User>)
    requires all == owners + regs && owners <= roles
    ensures all <= roles + (regs - roles) && owners <= roles * all && (regs - roles) * all == regs - roles
    ensures |regs - roles| >= |regs| <==> regs !! roles
  {
    assert |regs - roles| == |regs| - |regs * roles|;
    assert regs * roles == {} <==> |regs * roles| == 0;
  }

  // ----------------------------------------------------- which operations complete

  /** Volunteers come with the role they have, and no operation asks for nobody. */
  predicate ByRoles<X, P>(e: Event<X, P>, roles: set<User>) {
    match e
    case Participate(_, user, isOwner) => isOwner == (user in roles)
    case Prepare(_, _, _, _, owners, regs) => owners > 0 || regs > 0
    case _ => true
  }

  predicate OwnersOnly<X>(r: PrepareRecord<X>, roles: set<User>) {
    r.owners <= roles && (r.requiredOwners > 0 || r.requiredRegs > 0)
  }

  ghost predicate RolesKept<X, P>(v: View<X, P>, roles: set<User>) {
    && (v.prep.Some? ==> StillPreparing(v.prep.value) && OwnersOnly(v.prep.value, roles))
    && forall i :: 0 <= i < |v.promoted| ==> ExactlyEnrolled(v.promoted[i]) && OwnersOnly(v.promoted[i], roles)
  }

  /** Only owners are enrolled for the owner layer, and a promoted record has exactly the required helpers. */
  lemma {:induction false} PromotedByRoles<X, P>(v: View<X, P>, es: seq<Event<X, P>>, roles: set<User>)
    requires RolesKept(v, roles) && forall i :: 0 <= i < |es| ==> ByRoles(es[i], roles)
    ensures RolesKept(ViewRun(v, es), roles)
  {
    if |es| == 0 {
    } else {
      PromotedByRoles(v, es[..|es| - 1], roles);
      StepByRoles(ViewRun(v, es[..|es| - 1]), es[|es| - 1], roles);
    }
  }

  lemma StepByRoles<X, P>(v: View<X, P>, e: Event<X, P>, roles: set<User>)
    requires RolesKept(v, roles) && ByRoles(e, roles)
    ensures RolesKept(ViewStep(v, e), roles)
  {
    match e {
      case New(_) =>
      case Prepare(_, _, _, _, _, _) =>
      case Participate(_, _, _) =>
      case SendPart(_, _, _, _) =>
    }
  }

  lemma FilledByRoles<X, P>(enrolling: seq<Event<X, P>>, p: PrepareRecord<X>, roles: set<User>)
    requires forall i :: 0 <= i < |enrolling| ==> ByRoles(enrolling[i], roles)
    requires ViewRun(View(None, None, [], []), enrolling) == View(None, Some(Opened(p)), [p], [])
    ensures ExactlyEnrolled(p) && OwnersOnly(p, roles)
  {
    PromotedByRoles(View(None, None, [], []), enrolling, roles);
    var v: View<X, P> := View(None, Some(Opened(p)), [p], []);
    assert v.promoted[0] == p;
  }

  /**
   * An allowed run in which volunteers, each with its role, fill the record p of this operation, and whoever then
   * sends parts.
   */
  ghost predicate FilledRun<X, P>(
    s: System<X, P>, es: seq<Event<X, P>>, op: Uuid, enrolling: seq<Event<X, P>>, p: PrepareRecord<X>,
    sends: seq<Send<P>>, roles: set<User>, id: User -> int)
  {
    && Disjoint(s) && AllowedRun(s, es) && ViewOf(s, op) == View(None, None, [], [])
    && EventsOf(s, es, op) == enrolling + Parts(op, sends, roles, id)
    && (forall i :: 0 <= i < |enrolling| ==> ByRoles(enrolling[i], roles))
    && ViewRun(View(None, None, [], []), enrolling) == View(None, Some(Opened(p)), [p], [])
  }

  /**
   * Whichever volunteers filled the record p, by their roles and in any order: with each helper sending once, and
   * nobody else, the operation finishes if and only if p's regular layer is free of owners.
   */
  lemma OperationCompletesExactly<X, P>(
    s: System<X, P>, es: seq<Event<X, P>>, op: Uuid, enrolling: seq<Event<X, P>>, p: PrepareRecord<X>,
    sends: seq<Send<P>>, roles: set<User>, id: User -> int)
    requires FilledRun(s, es, op, enrolling, p, sends, roles, id)
    requires Distinct(Senders(sends)) && Elements(Senders(sends)) == p.owners + p.regs
    ensures |ViewOf(Run(s, es), op).completed| == 1 <==> p.regs !! roles
  {
    FilledThenSent(s, es, op, enrolling, p, sends, roles, id);
    NonZeroSizes(p.owners, p.regs);
    CompletesExactly(View(None, Some(Opened(p)), [p], []), op, Opened(p), sends, p.owners, p.regs, roles, id);
  }

  /**
   * Whoever sends parts after that: the finished record, if there is one, has all of them by the senders' roles,
   * and there is one if and only if they suffice.
   */
  lemma OperationDecided<X, P>(
    s: System<X, P>, es: seq<Event<X, P>>, op: Uuid, enrolling: seq<Event<X, P>>, p: PrepareRecord<X>,
    sends: seq<Send<P>>, roles: set<User>, id: User -> int)
    requires FilledRun(s, es, op, enrolling, p, sends, roles, id)
    ensures var others := Elements(Senders(sends)) - roles;
            ViewOf(Run(s, es), op).completed
            == if Suffices(Opened<X, P>(p), Senders(sends), roles, others) then
                 [Gathered(Opened(p), sends, roles, others, id)]
               else []
  {
    var others := Elements(Senders(sends)) - roles;
    FilledThenSent(s, es, op, enrolling, p, sends, roles, id);
    if |sends| > 0 {
      ShortBeforeLast(s, es, op, enrolling, p, sends, roles, id);
    }
    SentAndDecided<X, P>(op, p, sends, roles, others, id);
  }

  /** When all but the last part do not suffice, all of them are in the record that is handed out. */
  lemma SentAndDecided<X, P>(op: Uuid, p: PrepareRecord<X>, sends: seq<Send<P>>, roles: set<User>, others: set<User>,
                             id: User -> int)
    requires p.requiredOwners > 0 || p.requiredRegs > 0
    requires Elements(Senders(sends)) <= roles + others && roles !! others
    requires |sends| > 0 ==> !Suffices(Opened<X, P>(p), Senders(sends)[..|sends| - 1], roles, others)
    ensures ViewRun(View(None, Some(Opened(p)), [p], []), Parts(op, sends, roles, id)).completed
         == if Suffices(Opened<X, P>(p), Senders(sends), roles, others) then
              [Gathered(Opened(p), sends, roles, others, id)]
            else []
  {
    var v: View<X, P> := View(None, Some(Opened(p)), [p], []);
    var j := PartsRun(v, op, Opened(p), sends, roles, others, id);
    if 0 < j < |sends| {
      var t := Senders(sends)[..|sends| - 1];
      SendersPrefix(sends, j);
      assert t[..j] == Senders(sends)[..j];
      SufficesFrom(Opened<X, P>(p), t, j, roles, others);
    }
    assert sends[..|sends|] == sends;
  }

  lemma ShortBeforeLast<X, P>(
    s: System<X, P>, es: seq<Event<X, P>>, op: Uuid, enrolling: seq<Event<X, P>>, p: PrepareRecord<X>,
    sends: seq<Send<P>>, roles: set<User>, id: User -> int)
    requires FilledRun(s, es, op, enrolling, p, sends, roles, id) && |sends| > 0
    ensures !Suffices(Opened<X, P>(p), Senders(sends)[..|sends| - 1], roles, Elements(Senders(sends)) - roles)
  {
    var n, others := |sends| - 1, Elements(Senders(sends)) - roles;
    FilledByRoles(enrolling, p, roles);
    BeforeLast(s, es, op, enrolling, p, sends, roles, id);
    SendersPrefix(sends, n);
    PrefixElements(Senders(sends), n);
    var i := PartsRun(View(None, Some(Opened<X, P>(p)), [p], []), op, Opened(p), sends[..n], roles, others, id);
  }

  lemma {:induction false} SufficesFrom<P>(r: CollectedRecord<P>, users: seq<User>, j: nat, roles: set<User>,
                                           others: set<User>)
    requires j <= |users| && Suffices(r, users[..j], roles, others)
    ensures Suffices(r, users, roles, others)
  {
    if j == |users| {
      assert users[..j] == users;
    } else {
      var t, u := users[..|users| - 1], users[|users| - 1];
      assert t[..j] == users[..j] && users == t + [u];
      SufficesFrom(r, t, j, roles, others);
      SufficesStill(r, t, u, roles, others);
    }
  }

  /** Before the last part the operation is still being collected. */
  lemma BeforeLast<X, P>(
    s: System<X, P>, es: seq<Event<X, P>>, op: Uuid, enrolling: seq<Event<X, P>>, p: PrepareRecord<X>,
    sends: seq<Send<P>>, roles: set<User>, id: User -> int)
    requires FilledRun(s, es, op, enrolling, p, sends, roles, id)
    requires |sends| > 0
    ensures ViewRun(View(None, Some(Opened(p)), [p], []), Parts(op, sends[..|sends| - 1], roles, id)).collected.Some?
  {
    var n := |sends| - 1;
    LastPartAllowed(s, es, op);
    var parts := Parts<X, P>(op, sends, roles, id);
    assert parts[..n] == Parts(op, sends[..n], roles, id);
    assert (enrolling + parts)[..|enrolling| + n] == enrolling + parts[..n];
    ViewRunConcat(View(None, None, [], []), enrolling, parts[..n]);
  }

  lemma {:induction false} LastPartAllowed<X, P>(s: System<X, P>, es: seq<Event<X, P>>, op: Uuid)
    requires Disjoint(s) && AllowedRun(s, es)
    requires var own := EventsOf(s, es, op); |own| > 0 && own[|own| - 1].SendPart?
    ensures var own := EventsOf(s, es, op); ViewRun(ViewOf(s, op), own[..|own| - 1]).collected.Some?
  {
    var before, e := es[..|es| - 1], es[|es| - 1];
    var own := EventsOf(s, before, op);
    if e.op == op && !Idle(ViewOf(Run(s, before), op), e) {
      assert EventsOf(s, es, op)[..|own|] == own;
      RunView(s, before, op);
    } else {
      assert EventsOf(s, es, op) == own;
      LastPartAllowed(s, before, op);
    }
  }

  lemma FilledThenSent<X, P>(
    s: System<X, P>, es: seq<Event<X, P>>, op: Uuid, enrolling: seq<Event<X, P>>, p: PrepareRecord<X>,
    sends: seq<Send<P>>, roles: set<User>, id: User -> int)
    requires FilledRun(s, es, op, enrolling, p, sends, roles, id)
    ensures ExactlyEnrolled(p) && OwnersOnly(p, roles)
    ensures ViewOf(Run(s, es), op)
         == ViewRun(View(None, Some(Opened(p)), [p], []), Parts(op, sends, roles, id))
  {
    RunView(s, es, op);
    ViewRunConcat(View(None, None, [], []), enrolling, Parts(op, sends, roles, id));
    FilledByRoles(enrolling, p, roles);
  }

  /** An allowed run that leaves the operation with these records. */
  ghost predicate Reaches<X, P>(s: System<X, P>, es: seq<Event<X, P>>, op: Uuid, v: View<X, P>) {
    Disjoint(s) && AllowedRun(s, es) && Disjoint(Run(s, es)) && ViewOf(Run(s, es), op) == v
  }

  /** Volunteers may come at any time, parts while the operation is being collected. */
  lemma ReachNext<X, P>(s: System<X, P>, es: seq<Event<X, P>>, e: Event<X, P>, v: View<X, P>)
    requires Reaches(s, es, e.op, v) && (e.Participate? || (e.SendPart? && v.collected.Some?))
    ensures Reaches(s, es + [e], e.op, ViewStep(v, e))
  {
    CollectedAllows(Run(s, es), e);
    RunPush(s, es, e, e.op);
    StepView(Run(s, es), e, e.op);
    StepDisjoint(Run(s, es), e);
  }

  lemma CollectedAllows<X, P>(s: System<X, P>, e: Event<X, P>)
    requires e.Participate? || (e.SendPart? && ViewOf(s, e.op).collected.Some?)
    ensures Allowed(s, e)
  {
  }

  lemma ReachPrepared<X, P>(op: Uuid, r: PrepareRecord<X>)
    requires r.requiredOwners > 0 && r.owners == {} && r.regs == {}
    ensures var prepare: Event<X, P> :=
              Prepare(op, r.requester, r.userset, r.ciphertext, r.requiredOwners, r.requiredRegs);
            Reaches(Step(Initial(), New(op)), [prepare], op, View(Some(r), None, [], []))
  {
    var s: System<X, P> := Step(Initial(), New(op));
    var prepare: Event<X, P> := Prepare(op, r.requester, r.userset, r.ciphertext, r.requiredOwners, r.requiredRegs);
    RunPush(s, [], prepare, op);
    assert [] + [prepare] == [prepare];
    StepView(s, prepare, op);
    StepDisjoint(s, prepare);
  }

  /** One helper of each kind is required; two volunteers with the owner's role come and send their parts. */
  function BothLayers<X, P>(op: Uuid, requester: User, userset: Uuid, ciphertext: X, a: User, b: User,
                            partA: P, partB: P, idA: int, idB: int): seq<Event<X, P>>
  {
    [Prepare(op, requester, userset, ciphertext, 1, 1)] + [Participate(op, a, true)] + [Participate(op, b, true)]
    + [SendPart(op, partA, idA, true)] + [SendPart(op, partB, idB, true)]
  }

  lemma TwoOwnersEnrol<X, P>(op: Uuid, r: PrepareRecord<X>, a: User, b: User)
    requires r.requiredOwners == r.requiredRegs == 1 && r.owners == {} && r.regs == {}
    ensures var p := r.(owners := {a}, regs := {b});
            var v: View<X, P> := View(Some(r), None, [], []);
            ViewStep(ViewStep(v, Participate(op, a, true)), Participate(op, b, true))
            == View(None, Some(Opened(p)), [p], [])
  {
    var first := r.(owners := {a});
    var v: View<X, P> := View(Some(r), None, [], []);
    assert Enrolled(r, a, true) == first && !first.HasEnoughParticipants();
    assert Enrolled(first, b, true) == r.(owners := {a}, regs := {b});
    assert ViewStep(v, Participate(op, a, true)) == View(Some(first), None, [], []);
  }

  /** Two parts filed under the owner layer do not finish an operation that requires a regular member's. */
  lemma TwoOwnersSend<X, P>(op: Uuid, p: PrepareRecord<X>, partA: P, partB: P, idA: int, idB: int)
    requires p.requiredOwners == p.requiredRegs == 1
    ensures var v: View<X, P> := View(None, Some(Opened(p)), [p], []);
            var w := ViewStep(v, SendPart(op, partA, idA, true));
            w.collected.Some? && ViewStep(w, SendPart(op, partB, idB, true)) == BothFiled(p, partA, partB, idA, idB)
  {
    assert [] + [partA] == [partA] && [] + [idA] == [idA];
    assert [partA] + [partB] == [partA, partB] && [idA] + [idB] == [idA, idB];
  }

  function BothFiled<X, P>(p: PrepareRecord<X>, partA: P, partB: P, idA: int, idB: int): View<X, P> {
    View(None, Some(Opened(p).(ownerParts := [partA, partB], ownerIds := [idA, idB])), [p], [])
  }

  lemma BothLayersReached<X, P>(
    op: Uuid, requester: User, userset: Uuid, ciphertext: X, a: User, b: User, partA: P, partB: P, idA: int, idB: int)
    ensures var es := BothLayers(op, requester, userset, ciphertext, a, b, partA, partB, idA, idB);
            var p := PrepareRecord(requester, userset, ciphertext, 1, 1, {a}, {b});
            Reaches(Step(Initial(), New(op)), es, op, BothFiled(p, partA, partB, idA, idB))
  {
    var r: PrepareRecord<X> := PrepareRecord(requester, userset, ciphertext, 1, 1, {}, {});
    var p := r.(owners := {a}, regs := {b});
    var e: Event<X, P> := Prepare(op, requester, userset, ciphertext, 1, 1);
    ReachPrepared<X, P>(op, r);
    TwoOwnersEnrol<X, P>(op, r, a, b);
    ReachTwo(op, [e], Participate(op, a, true), Participate(op, b, true), View(Some(r), None, [], []));
    TwoOwnersSend<X, P>(op, p, partA, partB, idA, idB);
    ReachTwo(op, [e] + [Participate(op, a, true)] + [Participate(op, b, true)], SendPart(op, partA, idA, true),
             SendPart(op, partB, idB, true), View(None, Some(Opened(p)), [p], []));
  }

  /**
   * With one helper of each kind required, two owners fill the record, or one owner who volunteers twice. Both
   * parts are filed under the owner layer, and the operation is not finished by them.
   */
  lemma OwnersFillBothLayers<X, P>(
    op: Uuid, requester: User, userset: Uuid, ciphertext: X, a: User, b: User, partA: P, partB: P, idA: int, idB: int)
    ensures var sys: System<X, P> := Step(Initial(), New(op));
            var es := BothLayers(op, requester, userset, ciphertext, a, b, partA, partB, idA, idB);
            && AllowedRun(sys, es)
            && var v := ViewOf(Run(sys, es), op);
               && |v.promoted| == 1 && v.promoted[0].owners == {a} && v.promoted[0].regs == {b}
               && v.completed == [] && v.collected.Some? && v.collected.value.ownerParts == [partA, partB]
  {
    BothLayersReached<X, P>(op, requester, userset, ciphertext, a, b, partA, partB, idA, idB);
  }

  /**
   * A member who never enrolled may then send a part: the server asks for a shard ID only. With the regular layer's
   * part from such a member the record is handed out after all, with two parts in the owner layer where one was
   * asked for.
   */
  lemma OutsiderFinishesBothLayers<X, P>(
    op: Uuid, requester: User, userset: Uuid, ciphertext: X, a: User, b: User, partA: P, partB: P, idA: int, idB: int,
    part: P, id: int)
    ensures var sys: System<X, P> := Step(Initial(), New(op));
            var es := BothLayers(op, requester, userset, ciphertext, a, b, partA, partB, idA, idB)
                      + [SendPart(op, part, id, false)];
            && AllowedRun(sys, es)
            && var done := ViewOf(Run(sys, es), op).completed;
               && |done| == 1 && done[0].ownerParts == [partA, partB] && done[0].ownerIds == [idA, idB]
               && done[0].regParts == [part] && done[0].regIds == [id]
  {
    var p := PrepareRecord(requester, userset, ciphertext, 1, 1, {a}, {b});
    BothLayersReached<X, P>(op, requester, userset, ciphertext, a, b, partA, partB, idA, idB);
    ReachNext(Step(Initial(), New(op)), BothLayers(op, requester, userset, ciphertext, a, b, partA, partB, idA, idB),
              SendPart(op, part, id, false), BothFiled(p, partA, partB, idA, idB));
    assert [] + [part] == [part] && [] + [id] == [id];
  }

  /** With one owner required, bob enrols, and another owner's part finishes the operation without bob's. */
  lemma OutsiderReplacesHelper<X, P>(
    op: Uuid, requester: User, userset: Uuid, ciphertext: X, bob: User, part: P, id: int)
    ensures var sys: System<X, P> := Step(Initial(), New(op));
            var es := [Prepare(op, requester, userset, ciphertext, 1, 0)] + [Participate(op, bob, true)]
                      + [SendPart(op, part, id, true)];
            && AllowedRun(sys, es)
            && var v := ViewOf(Run(sys, es), op);
               && |v.promoted| == 1 && v.promoted[0].owners == {bob} && v.promoted[0].regs == {}
               && |v.completed| == 1 && v.completed[0].ownerParts == [part] && v.completed[0].ownerIds == [id]
               && v.completed[0].regParts == []
  {
    var r: PrepareRecord<X> := PrepareRecord(requester, userset, ciphertext, 1, 0, {}, {});
    var p := r.(owners := {bob});
    ReachPrepared<X, P>(op, r);
    assert Enrolled(r, bob, true) == p && p.HasEnoughParticipants();
    var v: View<X, P> := View(Some(r), None, [], []);
    assert ViewStep(v, Participate(op, bob, true)) == View(None, Some(Opened(p)), [p], []);
    ReachTwo(op, [Prepare(op, requester, userset, ciphertext, 1, 0)], Participate(op, bob, true),
             SendPart(op, part, id, true), v);
    assert [] + [part] == [part] && [] + [id] == [id];
  }

  lemma ReachTwo<X, P>(op: Uuid, es: seq<Event<X, P>>, e: Event<X, P>, f: Event<X, P>, v: View<X, P>)
    requires Reaches(Step(Initial(), New(op)), es, op, v) && e.op == f.op == op
    requires e.Participate? || (e.SendPart? && v.collected.Some?)
    requires f.Participate? || (f.SendPart? && ViewStep(v, e).collected.Some?)
    ensures Reaches(Step(Initial(), New(op)), es + [e] + [f], op, ViewStep(ViewStep(v, e), f))
  {
    ReachNext(Step(Initial(), New(op)), es, e, v);
    ReachNext(Step(Initial(), New(op)), es + [e], f, ViewStep(v, e));
  }

  /**
   * An operation whose helpers enrol and then each send one part, in any two orders and interleaved with anything
   * on other operations and with volunteers that change nothing, hands out exactly one complete record of each
   * kind.
   */
  lemma OperationCompletes<X, P>(
    s: System<X, P>, es: seq<Event<X, P>>, op: Uuid, requester: User, userset: Uuid, ciphertext: X,
    enrolling: seq<User>, sending: seq<User>, owners: set<User>, regs: set<User>, part: User -> P, id: User -> int)
    requires Disjoint(s) && AllowedRun(s, es) && ViewOf(s, op) == View(None, None, [], [])
    requires Helpers(enrolling, owners, regs) && Helpers(sending, owners, regs) && owners + regs != {}
    requires EventsOf(s, es, op) == [Prepare(op, requester, userset, ciphertext, |owners|, |regs|)]
                                 + Enrolments(op, enrolling, owners) + Parts(op, ByHelpers(sending, part), owners, id)
    ensures var p := PrepareRecord(requester, userset, ciphertext, |owners|, |regs|, owners, regs);
            ViewOf(Run(s, es), op)
            == View(None, None, [p], [Gathered(Opened(p), ByHelpers(sending, part), owners, regs, id)])
  {
    RunView(s, es, op);
    var r: PrepareRecord<X> := PrepareRecord(requester, userset, ciphertext, |owners|, |regs|, {}, {});
    ViewCompletes<X, P>(op, r, enrolling, sending, owners, regs, part, id);
  }

  lemma ViewCompletes<X, P>(
    op: Uuid, r: PrepareRecord<X>, enrolling: seq<User>, sending: seq<User>, owners: set<User>, regs: set<User>,
    part: User -> P, id: User -> int)
    requires r.owners == {} && r.regs == {} && r.requiredOwners == |owners| && r.requiredRegs == |regs|
    requires Helpers(enrolling, owners, regs) && Helpers(sending, owners, regs) && owners + regs != {}
    ensures var p := r.(owners := owners, regs := regs);
            var prepare: Event<X, P> := Prepare(op, r.requester, r.userset, r.ciphertext, |owners|, |regs|);
            ViewRun(View(None, None, [], []),
                    [prepare] + Enrolments(op, enrolling, owners) + Parts(op, ByHelpers(sending, part), owners, id))
            == View(None, None, [p], [Gathered(Opened(p), ByHelpers(sending, part), owners, regs, id)])
  {
    var prepare: Event<X, P> := Prepare(op, r.requester, r.userset, r.ciphertext, |owners|, |regs|);
    ViewRunConcat(View(None, None, [], []), [prepare] + Enrolments(op, enrolling, owners),
                  Parts(op, ByHelpers(sending, part), owners, id));
    PreparedAndFilled<X, P>(op, r, enrolling, owners, regs);
    FilledCollects<X, P>(op, r.(owners := owners, regs := regs), sending, owners, regs, part, id);
  }

  lemma FilledCollects<X, P>(op: Uuid, p: PrepareRecord<X>, sending: seq<User>, owners: set<User>, regs: set<User>,
                             part: User -> P, id: User -> int)
    requires p.requiredOwners == |owners| && p.requiredRegs == |regs|
    requires Helpers(sending, owners, regs) && owners + regs != {}
    ensures ViewRun(View(None, Some(Opened(p)), [p], []), Parts(op, ByHelpers(sending, part), owners, id))
         == View(None, None, [p], [Gathered(Opened(p), ByHelpers(sending, part), owners, regs, id)])
  {
    NotEmpty(sending, owners + regs);
    var sends := ByHelpers(sending, part);
    assert sends[..|sends|] == sends;
    CollectionRun(View(None, Some(Opened(p)), [p], []), op, Opened(p), sends, owners, regs, id, |sends|);
  }

  lemma PreparedAndFilled<X, P>(op: Uuid, r: PrepareRecord<X>, enrolling: seq<User>, owners: set<User>, regs: set<User>)
    requires r.owners == {} && r.regs == {} && r.requiredOwners == |owners| && r.requiredRegs == |regs|
    requires Helpers(enrolling, owners, regs) && owners + regs != {}
    ensures var p := r.(owners := owners, regs := regs);
            var prepare: Event<X, P> := Prepare(op, r.requester, r.userset, r.ciphertext, |owners|, |regs|);
            ViewRun(View(None, None, [], []), [prepare] + Enrolments(op, enrolling, owners))
            == View(None, Some(Opened(p)), [p], [])
  {
    var v: View<X, P> := View(None, None, [], []);
    var prepare: Event<X, P> := Prepare(op, r.requester, r.userset, r.ciphertext, |owners|, |regs|);
    ViewRunConcat(v, [prepare], Enrolments(op, enrolling, owners));
    assert [prepare][..0] == [] && ViewRun(v, [prepare]) == View(Some(r), None, [], []);
    NotEmpty(enrolling, owners + regs);
    EnrolmentRun<X, P>(View(Some(r), None, [], []), op, r, enrolling, owners, regs, |enrolling|);
    assert enrolling[..|enrolling|] == enrolling;
    FilledEnough(r, owners, regs, enrolling, |enrolling|);
  }

  lemma NotEmpty(users: seq<User>, s: set<User>)
    requires Elements(users) == s && s != {}
    ensures |users| > 0
  {
  }
}
