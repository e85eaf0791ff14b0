/** The life of decryption operations: prepared, collected, finished. X is a ciphertext, P a decryption part. */
module DecryptionsManager {
  import opened Packets

  datatype PrepareRecord<X> = PrepareRecord(
    requester: User, userset: Uuid, ciphertext: X, requiredOwners: nat, requiredRegs: nat,
    owners: set<User>, regs: set<User>)
  {
    predicate HasEnoughParticipants() {
      |owners| >= requiredOwners && |regs| >= requiredRegs
    }
  }

  datatype CollectedRecord<P> = CollectedRecord(
    requester: User, userset: Uuid, requiredOwners: nat, requiredRegs: nat,
    regParts: seq<P>, regIds: seq<int>, ownerParts: seq<P>, ownerIds: seq<int>)
  {
    predicate HasEnoughParts() {
      |ownerParts| >= requiredOwners && |regParts| >= requiredRegs
    }
  }

  datatype Requirement = NotRequired | RegPart | OwnerPart

  datatype Lookup<+T> = Done(value: T) | NoOperation

  /** Which part a volunteer is taken for: owners for the owner layer while it is short, else for the regular layer. */
  function Enrolment<X>(r: PrepareRecord<X>, isOwner: bool): Requirement {
    if isOwner && |r.owners| < r.requiredOwners then OwnerPart
    else if |r.regs| < r.requiredRegs then RegPart
    else NotRequired
  }

  function Enrolled<X>(r: PrepareRecord<X>, user: User, isOwner: bool): PrepareRecord<X> {
    match Enrolment(r, isOwner)
    case OwnerPart => r.(owners := r.owners + {user})
    case RegPart => r.(regs := r.regs + {user})
    case NotRequired => r
  }

  function Opened<X, P>(r: PrepareRecord<X>): CollectedRecord<P> {
    CollectedRecord(r.requester, r.userset, r.requiredOwners, r.requiredRegs, [], [], [], [])
  }

  /** A part is filed by the sender's role, whatever it was enrolled for. */
  function WithPart<P>(r: CollectedRecord<P>, part: P, id: int, isOwner: bool): CollectedRecord<P> {
    if isOwner then r.(ownerParts := r.ownerParts + [part], ownerIds := r.ownerIds + [id])
    else r.(regParts := r.regParts + [part], regIds := r.regIds + [id])
  }

  // ------------------------------------------------------------- manager's state

  datatype State<X, P> = State(prep: map<Uuid, PrepareRecord<X>>, collected: map<Uuid, CollectedRecord<P>>,
                               all: set<Uuid>)

  /** The state after enrolling a volunteer; a full record moves from prepared to collected. */
  function AfterParticipant<X, P>(s: State<X, P>, op: Uuid, user: User, isOwner: bool): State<X, P> {
    if op !in s.prep || Enrolment(s.prep[op], isOwner).NotRequired? then s
    else
      var r := Enrolled(s.prep[op], user, isOwner);
      if r.HasEnoughParticipants() then
        s.(prep := s.prep - {op},
           collected := if op in s.collected then s.collected else s.collected[op := Opened(r)])
      else s.(prep := s.prep[op := r])
  }

  /** The prepared record handed out when that enrolment completed it. */
  function Promoted<X, P>(s: State<X, P>, op: Uuid, user: User, isOwner: bool): Option<PrepareRecord<X>> {
    if op !in s.prep || Enrolment(s.prep[op], isOwner).NotRequired? then None
    else
      var r := Enrolled(s.prep[op], user, isOwner);
      if r.HasEnoughParticipants() then Some(r) else None
  }

  function AfterPart<X, P>(s: State<X, P>, op: Uuid, part: P, id: int, isOwner: bool): State<X, P>
    requires op in s.collected
  {
    var r := WithPart(s.collected[op], part, id, isOwner);
    s.(collected := if r.HasEnoughParts() then s.collected - {op} else s.collected[op := r])
  }

  function Completed<X, P>(s: State<X, P>, op: Uuid, part: P, id: int, isOwner: bool): Option<CollectedRecord<P>>
    requires op in s.collected
  {
    var r := WithPart(s.collected[op], part, id, isOwner);
    if r.HasEnoughParts() then Some(r) else None
  }

  /** A lookup reads the prepared records of one moment and the collected records of a possibly later one. */
  function UsersetOf<X, P>(atPrep: State<X, P>, atCollected: State<X, P>, op: Uuid): Lookup<Uuid> {
    if op in atPrep.prep then Done(atPrep.prep[op].userset)
    else if op in atCollected.collected then Done(atCollected.collected[op].userset)
    else NoOperation
  }

  class DecryptionsManager<X, P> {
    var prep: map<Uuid, PrepareRecord<X>>
    var collected: map<Uuid, CollectedRecord<P>>
    var allOpIds: set<Uuid>

    ghost function Current(): State<X, P>
      reads this
    {
      State(prep, collected, allOpIds)
    }

    constructor ()
      ensures Current() == State(map[], map[], {})
    {
      prep, collected, allOpIds := map[], map[], {};
    }

    /** The ID is sampled until it is not among the known ones. */
    method NewOperation(sampled: Uuid) returns (op: Uuid)
      requires sampled !in allOpIds
      modifies this
      ensures op == sampled && Current() == old(Current()).(all := old(allOpIds) + {op})
    {
      op := sampled;
      allOpIds := allOpIds + {op};
    }

    method PrepareOperation(op: Uuid, requester: User, userset: Uuid, ciphertext: X, requiredOwners: nat,
                            requiredRegs: nat)
      modifies this
      ensures Current() == if op in old(prep) then old(Current())
                           else old(Current()).(prep := old(prep)[op :=
                             PrepareRecord(requester, userset, ciphertext, requiredOwners, requiredRegs, {}, {})])
    {
      if op !in prep {
        prep := prep[op := PrepareRecord(requester, userset, ciphertext, requiredOwners, requiredRegs, {}, {})];
      }
    }

    method RegisterParticipant(op: Uuid, user: User, isOwner: bool)
      returns (r: Lookup<(Option<PrepareRecord<X>>, Requirement)>)
      modifies this
      ensures Current() == AfterParticipant(old(Current()), op, user, isOwner)
      ensures r == if op in old(prep) then
                     Done((Promoted(old(Current()), op, user, isOwner), Enrolment(old(prep)[op], isOwner)))
                   else if op in old(allOpIds) then Done((None, NotRequired)) else NoOperation
    {
      if op !in prep {
        return if op in allOpIds then Done((None, NotRequired)) else NoOperation;
      }
      var requirement;
      var record := prep[op];
      if isOwner && |record.owners| < record.requiredOwners {
        record := record.(owners := record.owners + {user});
        requirement := OwnerPart;
      } else if |record.regs| < record.requiredRegs {
        record := record.(regs := record.regs + {user});
        requirement := RegPart;
      } else {
        return Done((None, NotRequired));
      }
      prep := prep[op := record];
      if record.HasEnoughParticipants() {
        if op !in collected {
          collected := collected[op := CollectedRecord(
            record.requester, record.userset, record.requiredOwners, record.requiredRegs, [], [], [], [])];
        }
        prep := prep - {op};
        assert prep == old(prep) - {op};
        return Done((Some(record), requirement));
      }
      return Done((None, requirement));
    }

    /** Callers must know that the operation is being collected: the record is not searched for. */
    method RegisterPart(op: Uuid, part: P, id: int, isOwner: bool) returns (r: Option<CollectedRecord<P>>)
      requires op in collected
      modifies this
      ensures Current() == AfterPart(old(Current()), op, part, id, isOwner)
      ensures r == Completed(old(Current()), op, part, id, isOwner)
    {
      var record := collected[op];
      if isOwner {
        record := record.(ownerParts := record.ownerParts + [part]);
        record := record.(ownerIds := record.ownerIds + [id]);
      } else {
        record := record.(regParts := record.regParts + [part]);
        record := record.(regIds := record.regIds + [id]);
      }
      collected := collected[op := record];
      if record.HasEnoughParts() {
        collected := collected - {op};
        assert collected == old(collected) - {op};
        return Some(record);
      }
      return None;
    }

    method GetOperationUserset(op: Uuid) returns (r: Lookup<Uuid>)
      ensures r == UsersetOf(Current(), Current(), op)
    {
      if op in prep {
        return Done(prep[op].userset);
      }
      if op in collected {
        return Done(collected[op].userset);
      }
      return NoOperation;
    }
  }
}
