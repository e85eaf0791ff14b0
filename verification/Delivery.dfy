/** The protocol's updates on the wire: what an operation sends always survives it, a user's long backlog does not. */
module Delivery {
  import opened Ranges
  import opened Packets
  import opened ElGamal
  import opened ByteCodec
  import opened PacketCodec
  import opened ServerStorage
  import opened DecryptionsManager
  import opened OperationView
  import opened ClientHandler
  import opened EndToEnd
  import U = UpdateManager

  // ------------------------------------------------------------ one operation's records

  /** There are at most 255 members to list, and their IDs fit. */
  lemma UsersCounted(id: User -> int, users: seq<User>, members: set<User>)
    requires GoodIds(id, members) && Distinct(users) && Elements(users) <= members
    ensures |users| <= MAX_MEMBERS && forall x :: x in Map(id, users) ==> IdFits(x)
  {
    var ids, all := Map(id, users), UpTo(MAX_MEMBERS);
    MapDistinct(id, users, members);
    forall x | x in Elements(ids) ensures x in Elements(all) {
      assert all[x - 1] == x;
    }
    SubsetSize(Elements(ids), Elements(all));
    DistinctBySize(ids);
    DistinctBySize(all);
    forall x | x in ids ensures IdFits(x) {
      SmallIdFits(x);
    }
  }

  lemma SmallIdFits(x: int)
    requires IsShardId(x)
    ensures IdFits(x)
  {
    assert Power256(1) == 256 * Power256(0);
    Power256Monotone(1, 8);
  }

  lemma ToldFits(k: Keys, requester: User, listed: seq<User>, members: set<User>)
    requires GoodIds(k.id, members) && Distinct(listed) && requester !in Elements(listed)
    requires Elements(listed) + {requester} <= members
    ensures var ids := HelperIds(k.id(requester), listed, k.id); |ids| < 256 && forall x :: x in ids ==> IdFits(x)
  {
    var all := [requester] + listed;
    DistinctFront(requester, listed);
    assert Elements(all) == {requester} + Elements(listed);
    UsersCounted(k.id, all, members);
    assert HelperIds(k.id(requester), listed, k.id) == Map(k.id, all);
  }

  /** What the helpers of a layer are sent reads back. */
  lemma ToDecryptSurvives(q: nat, k: Keys, st: Storage, userset: Uuid, requester: User, owners: set<User>,
                          regs: set<User>, layer: Layer, listed: seq<User>, op: Uuid, c: Ciphertext<Point, Sealed>)
    requires Staffed(q, k, st, userset, requester, owners, regs) && CiphertextFits(c)
    requires Distinct(listed) && Elements(listed) == LayerHelpers(layer, owners, regs)
    ensures var r := ToDecryptRecord(op, c, HelperIds(k.id(requester), listed, k.id));
            ToDecryptCounted(r) && ToDecryptFits(r)
  {
    StoredIdsGood(k, st, userset);
    ToldFits(k, requester, listed, st.usersets[userset].Members());
  }

  lemma LayerSurvives(k: Keys, requester: User, arrived: seq<User>, members: set<User>, part: User -> Point)
    requires GoodIds(k.id, members) && Distinct(arrived) && requester !in arrived
    requires Elements(arrived) + {requester} <= members && forall u :: u in arrived ==> PointFits(part(u))
    ensures LayerFits(k, requester, arrived, part)
  {
    DistinctBack(arrived, requester);
    ElementsPush(arrived, requester);
    UsersCounted(k.id, arrived + [requester], members);
    MapPush(k.id, arrived, requester);
  }

  /** What the requester of a staffed operation is sent reads back. */
  lemma FinishedSurvives(q: nat, k: Keys, st: Storage, userset: Uuid, requester: User, owners: set<User>,
                         regs: set<User>, sending: seq<User>, part: User -> Point, f: FinishedRecord<Point>)
    requires Staffed(q, k, st, userset, requester, owners, regs)
    requires Distinct(sending) && Elements(sending) == owners + regs && forall u :: u in sending ==> PointFits(part(u))
    requires FinishedBy(f, k, requester, owners, regs, sending, part)
    ensures FinishedCounted(f) && FinishedFits(f)
  {
    var members := st.usersets[userset].Members();
    StoredIdsGood(k, st, userset);
    ChosenSurvives(k, requester, owners, regs, sending, members, part);
    ChosenSurvives(k, requester, regs, owners, sending, members, part);
    LayersFit(k, requester, Chosen(sending, owners), Chosen(sending, regs), part, f);
  }

  /** What a layer's arrivals bring fits. */
  ghost predicate LayerFits(k: Keys, requester: User, arrived: seq<User>, part: User -> Point) {
    && |arrived| < 256 && (forall x :: x in RequesterIds(k, arrived, requester) ==> IdFits(x))
    && forall p :: p in Map(part, arrived) ==> PointFits(p)
  }

  lemma LayersFit(k: Keys, requester: User, a: seq<User>, b: seq<User>, part: User -> Point,
                  f: FinishedRecord<Point>)
    requires LayerFits(k, requester, a, part) && LayerFits(k, requester, b, part)
    requires f.regParts == Map(part, b) && f.ownerParts == Map(part, a)
    requires f.regIds == RequesterIds(k, b, requester) && f.ownerIds == RequesterIds(k, a, requester)
    ensures FinishedCounted(f) && FinishedFits(f)
  {
  }

  lemma ChosenSurvives(k: Keys, requester: User, s: set<User>, others: set<User>, sending: seq<User>,
                       members: set<User>, part: User -> Point)
    requires GoodIds(k.id, members) && requester !in s && s + {requester} <= members
    requires Distinct(sending) && Elements(sending) == s + others && forall u :: u in sending ==> PointFits(part(u))
    ensures LayerFits(k, requester, Chosen(sending, s), part)
  {
    ChosenAll(sending, s, others);
    ChosenFit(sending, s, part, requester);
    LayerSurvives(k, requester, Chosen(sending, s), members, part);
  }

  lemma ChosenFit(sending: seq<User>, s: set<User>, part: User -> Point, requester: User)
    requires forall u :: u in sending ==> PointFits(part(u))
    requires requester !in s
    ensures forall u :: u in Chosen(sending, s) ==> PointFits(part(u))
    ensures requester !in Chosen(sending, s)
  {
    ChosenMembers(sending, s);
    forall u | u in Chosen(sending, s) ensures u in sending && u in s {
      assert u in Elements(Chosen(sending, s));
    }
  }

  /** Hence the requester receives the finished record as it was sent, when nothing else is pending. */
  lemma FinishedDelivered(q: nat, k: Keys, st: Storage, userset: Uuid, requester: User, owners: set<User>,
                          regs: set<User>, sending: seq<User>, part: User -> Point, op: Uuid, r: CollectedRecord<Point>)
    requires Staffed(q, k, st, userset, requester, owners, regs)
    requires Distinct(sending) && Elements(sending) == owners + regs && forall u :: u in sending ==> PointFits(part(u))
    requires r == Gathered(r, ByHelpers(sending, part), owners, regs, k.id)
    ensures var u: Update := U.Only(U.Finished(FinishedOf(op, r, k.id(requester))));
            ReadUpdate(UpdateBytes(u)) == Some((u, []))
  {
    var f := FinishedOf(op, r, k.id(requester));
    GatheredFinishes(k, requester, owners, regs, sending, part, op, r);
    FinishedSurvives(q, k, st, userset, requester, owners, regs, sending, part, f);
    FinishedAlone(f);
  }

  lemma FinishedAlone(f: FinishedRecord<Point>)
    requires FinishedCounted(f) && FinishedFits(f)
    ensures var u: Update := U.Only(U.Finished(f)); ReadUpdate(UpdateBytes(u)) == Some((u, []))
  {
    AloneFits(f);
    CountedReadsBack(U.Only(U.Finished(f)));
  }

  lemma AloneFits(f: FinishedRecord<Point>)
    requires FinishedCounted(f) && FinishedFits(f)
    ensures UpdateFits(U.Only(U.Finished(f))) && UpdateCounted(U.Only(U.Finished(f)))
  {
  }

  // ------------------------------------------------------------------- backlogs

  /** A response with more than 255 entries of any kind is not received as it was sent. */
  lemma LongBacklogLost(u: Update)
    requires UpdateFits(u)
    requires |u.addedAsMember| > 255 || |u.addedAsOwner| > 255 || |u.onLookup| > 255 || |u.toDecrypt| > 255
             || |u.finished| > 255
    ensures ReadUpdate(UpdateBytes(u)) != Some((u, []))
  {
    UpdateRoundTrip(u);
  }

  /** A user is looked up for these operations, and retrieves nothing meanwhile. */
  function Lookups(user: User, ops: seq<Uuid>): (calls: seq<U.Call<Point, Sealed>>)
    ensures |calls| == |ops|
  {
    seq(|ops|, i requires 0 <= i < |ops| => U.Registering(user, U.OnLookup(ops[i])))
  }

  lemma {:induction false} LookupsPending(user: User, ops: seq<Uuid>)
    ensures U.Pending(U.Run(map[], Lookups(user, ops)), user) == UpdateResponse([], [], ops, [], [])
  {
    if |ops| == 0 {
    } else {
      var t := ops[..|ops| - 1];
      LookupsPending(user, t);
      assert Lookups(user, ops)[..|t|] == Lookups(user, t);
      assert t + [ops[|t|]] == ops;
    }
  }

  /** The user receives all the lookups at the next retrieval if and only if there are at most 255 of them. */
  lemma LookupsSurviveExactly(user: User, ops: seq<Uuid>)
    ensures var u: Update := U.Pending(U.Run(map[], Lookups(user, ops)), user);
            ReadUpdate(UpdateBytes(u)) == Some((u, [])) <==> |ops| <= 255
  {
    LookupsPending(user, ops);
    UpdateRoundTrip(UpdateResponse([], [], ops, [], []));
  }
}
