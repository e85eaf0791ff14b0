/** The server's handling of one connected client's requests. */
module ClientHandler {
  import opened Ranges
  import opened Packets
  import opened Shamir
  import opened ElGamal
  import opened ServerStorage
  import opened DecryptionsManager
  import opened UpdateManager
  import Poly

  // ----------------------------------------------------- what the handlers send out

  /** The shard ID stored for a user in a userset; 0 stands for none. */
  function IdIn(shardIds: map<(User, Uuid), int>, userset: Uuid): User -> int {
    u => if (u, userset) in shardIds then shardIds[(u, userset)] else 0
  }

  /** The IDs told to the helpers of a layer: the requester's first. */
  function HelperIds(requesterId: int, helpers: seq<User>, id: User -> int): seq<int> {
    [requesterId] + Map(id, helpers)
  }

  function DecryptItem<G, C>(op: Uuid, ciphertext: Ciphertext<G, C>, ids: seq<int>): User -> Item<G, C> {
    _ => ToDecrypt(ToDecryptRecord(op, ciphertext, ids))
  }

  function LookupItem<G, C>(op: Uuid): User -> Item<G, C> { _ => OnLookup(op) }

  /** The finished record: the collected parts, and the collected IDs followed by the requester's. */
  function FinishedOf<G>(op: Uuid, r: CollectedRecord<G>, requesterId: int): FinishedRecord<G> {
    FinishedRecord(op, r.regParts, r.ownerParts, r.regIds + [requesterId], r.ownerIds + [requesterId])
  }

  /** The record with which an operation that needs no helper is finished at once. */
  function NothingCollected<G>(requester: User, userset: Uuid): CollectedRecord<G> {
    CollectedRecord(requester, userset, 0, 0, [], [], [], [])
  }

  /** The record a new member of each kind receives. */
  function MemberItem<G, C>(q: nat, userset: Uuid, regKey: G, ownerKey: G, regPoly: seq<nat>, id: User -> int)
    : User -> Item<G, C>
    requires q >= 1
  {
    u => AddedAsMember(MemberRecord(userset, regKey, ownerKey, ShardAt(q, regPoly)(id(u))))
  }

  function OwnerItem<G, C>(q: nat, userset: Uuid, regKey: G, ownerKey: G, regPoly: seq<nat>, ownerPoly: seq<nat>,
                           id: User -> int)
    : User -> Item<G, C>
    requires q >= 1
  {
    u => AddedAsOwner(OwnerRecord(MemberRecord(userset, regKey, ownerKey, ShardAt(q, regPoly)(id(u))),
                                  ShardAt(q, ownerPoly)(id(u))))
  }

  predicate AllHaveIds(shardIds: map<(User, Uuid), int>, userset: Uuid, users: set<User>) {
    forall u :: u in users ==> (u, userset) in shardIds
  }

  /** The updates after `continue_operation`, for the orders in which it walks through the two sets of helpers. */
  function Continued<G, C>(u: Updates<G, C>, shardIds: map<(User, Uuid), int>, op: Uuid,
                           r: PrepareRecord<Ciphertext<G, C>>, owners: seq<User>, regs: seq<User>): Updates<G, C>
  {
    var id := IdIn(shardIds, r.userset);
    if !AllHaveIds(shardIds, r.userset, r.owners + r.regs + {r.requester}) then u
    else RegisterEach(
      RegisterEach(u, owners, DecryptItem(op, r.ciphertext, HelperIds(id(r.requester), owners, id))),
      regs, DecryptItem(op, r.ciphertext, HelperIds(id(r.requester), regs, id)))
  }

  // ------------------------------------------------------ what every user finds queued

  /** This list has the requester's stored ID first and then the helpers' in order. */
  predicate ListsStoredIds(ids: seq<int>, shardIds: map<(User, Uuid), int>, userset: Uuid, requester: User,
                           helpers: seq<User>)
  {
    && |ids| == |helpers| + 1 && (requester, userset) in shardIds && ids[0] == shardIds[(requester, userset)]
    && forall i :: 0 <= i < |helpers| ==>
         (helpers[i], userset) in shardIds && ids[i + 1] == shardIds[(helpers[i], userset)]
  }

  /** Helpers of each layer have the ciphertext queued with these IDs, those of both layers twice; that is all. */
  ghost predicate ToldIds<G, C>(before: Updates<G, C>, after: Updates<G, C>, op: Uuid,
                                r: PrepareRecord<Ciphertext<G, C>>, ownerIds: seq<int>, regIds: seq<int>)
  {
    forall u {:trigger Pending(after, u)} ::
      var was := Pending(before, u);
      Pending(after, u)
      == was.(toDecrypt := was.toDecrypt
                           + (if u in r.owners then [ToDecryptRecord(op, r.ciphertext, ownerIds)] else [])
                           + (if u in r.regs then [ToDecryptRecord(op, r.ciphertext, regIds)] else []))
  }

  /** Each helper has been told the stored IDs of its own layer's helpers, and the requester's. */
  ghost predicate HelpersTold<G, C>(
    before: Updates<G, C>, after: Updates<G, C>, shardIds: map<(User, Uuid), int>, op: Uuid,
    r: PrepareRecord<Ciphertext<G, C>>, owners: seq<User>, regs: seq<User>)
  {
    exists ownerIds, regIds ::
      && ListsStoredIds(ownerIds, shardIds, r.userset, r.requester, owners)
      && ListsStoredIds(regIds, shardIds, r.userset, r.requester, regs)
      && ToldIds(before, after, op, r, ownerIds, regIds)
  }

  /** Every co-owner and regular member has its own shards queued, under both public keys; nothing else is new. */
  ghost predicate MembersTold<G, C>(
    before: Updates<G, C>, after: Updates<G, C>, shardIds: map<(User, Uuid), int>, g: Group<G>, userset: Uuid,
    regPoly: seq<nat>, ownerPoly: seq<nat>, owners: seq<User>, regs: seq<User>)
    requires g.order >= 1 && |regPoly| > 0 && |ownerPoly| > 0
  {
    forall u {:trigger Pending(after, u)} ::
      (u in owners || u in regs ==> (u, userset) in shardIds)
      && var was := Pending(before, u);
         var id := if (u, userset) in shardIds then shardIds[(u, userset)] else 0;
         var record := MemberRecord(userset, PublicKey(g, regPoly[0]), PublicKey(g, ownerPoly[0]),
                                    Shard(id, Poly.Value(regPoly, id) % g.order));
         Pending(after, u)
         == was.(addedAsOwner := was.addedAsOwner + if u in owners then
                   [OwnerRecord(record, Shard(id, Poly.Value(ownerPoly, id) % g.order))] else [],
                 addedAsMember := was.addedAsMember + if u in regs then [record] else [])
  }

  /** Everybody but the requester has this operation to look up, once as an owner and once as a regular member. */
  ghost predicate LookedUp<G, C>(before: Updates<G, C>, after: Updates<G, C>, op: Uuid, info: UserSetInfo,
                                 requester: User)
  {
    forall u {:trigger Pending(after, u)} ::
      var was := Pending(before, u);
      Pending(after, u)
      == was.(onLookup := was.onLookup + (if u in info.owners && u != requester then [op] else [])
                                       + (if u in info.regs && u != requester then [op] else []))
  }

  lemma StoredIdsListed(shardIds: map<(User, Uuid), int>, userset: Uuid, requester: User, helpers: seq<User>)
    requires (requester, userset) in shardIds && forall u :: u in helpers ==> (u, userset) in shardIds
    ensures var id := IdIn(shardIds, userset);
            ListsStoredIds(HelperIds(id(requester), helpers, id), shardIds, userset, requester, helpers)
  {
  }

  /** What `continue_operation` queues, when everybody is a member. */
  lemma ContinuedTells<G, C>(u: Updates<G, C>, shardIds: map<(User, Uuid), int>, op: Uuid,
                             r: PrepareRecord<Ciphertext<G, C>>, owners: seq<User>, regs: seq<User>)
    requires Distinct(owners) && Elements(owners) == r.owners && Distinct(regs) && Elements(regs) == r.regs
    requires AllHaveIds(shardIds, r.userset, r.owners + r.regs + {r.requester})
    ensures HelpersTold(u, Continued(u, shardIds, op, r, owners, regs), shardIds, op, r, owners, regs)
  {
    var id, after := IdIn(shardIds, r.userset), Continued(u, shardIds, op, r, owners, regs);
    var ownerIds, regIds := HelperIds(id(r.requester), owners, id), HelperIds(id(r.requester), regs, id);
    assert forall v :: v in owners ==> v in r.owners + r.regs + {r.requester};
    assert forall v :: v in regs ==> v in r.owners + r.regs + {r.requester};
    assert r.requester in r.owners + r.regs + {r.requester};
    StoredIdsListed(shardIds, r.userset, r.requester, owners);
    StoredIdsListed(shardIds, r.userset, r.requester, regs);
    ToldInTurn(u, op, r, owners, regs, ownerIds, regIds);
  }

  lemma ToldInTurn<G, C>(u: Updates<G, C>, op: Uuid, r: PrepareRecord<Ciphertext<G, C>>, owners: seq<User>,
                         regs: seq<User>, ownerIds: seq<int>, regIds: seq<int>)
    requires Distinct(owners) && Elements(owners) == r.owners && Distinct(regs) && Elements(regs) == r.regs
    ensures ToldIds(u, RegisterEach(RegisterEach(u, owners, DecryptItem(op, r.ciphertext, ownerIds)), regs,
                                    DecryptItem(op, r.ciphertext, regIds)), op, r, ownerIds, regIds)
  {
    var forOwners := DecryptItem<G, C>(op, r.ciphertext, ownerIds);
    var forRegs := DecryptItem<G, C>(op, r.ciphertext, regIds);
    var first := RegisterEach(u, owners, forOwners);
    forall v
      ensures var was := Pending(u, v);
              Pending(RegisterEach(first, regs, forRegs), v)
              == was.(toDecrypt := was.toDecrypt
                                   + (if v in r.owners then [ToDecryptRecord(op, r.ciphertext, ownerIds)] else [])
                                   + (if v in r.regs then [ToDecryptRecord(op, r.ciphertext, regIds)] else []))
    {
      RegisteredOnce(u, owners, forOwners, v);
      RegisteredOnce(first, regs, forRegs, v);
      assert v in owners <==> v in Elements(owners);
      assert v in regs <==> v in Elements(regs);
      NothingJoined(Pending(u, v));
      NothingJoined(Pending(first, v));
    }
  }

  /** What `make_userset` queues. */
  lemma DealtTells<G, C>(u: Updates<G, C>, shardIds: map<(User, Uuid), int>, g: Group<G>, userset: Uuid,
                         regPoly: seq<nat>, ownerPoly: seq<nat>, owners: seq<User>, regs: seq<User>)
    requires g.order >= 1 && |regPoly| > 0 && |ownerPoly| > 0 && Distinct(owners) && Distinct(regs)
    requires forall v :: v in owners || v in regs ==> (v, userset) in shardIds
    ensures var q, id := g.order, IdIn(shardIds, userset);
            var regKey, ownerKey := PublicKey(g, regPoly[0]), PublicKey(g, ownerPoly[0]);
            var after := RegisterEach(
              RegisterEach(u, owners, OwnerItem(q, userset, regKey, ownerKey, regPoly, ownerPoly, id)),
              regs, MemberItem(q, userset, regKey, ownerKey, regPoly, id));
            MembersTold(u, after, shardIds, g, userset, regPoly, ownerPoly, owners, regs)
  {
    var q, id := g.order, IdIn(shardIds, userset);
    var regKey, ownerKey := PublicKey(g, regPoly[0]), PublicKey(g, ownerPoly[0]);
    var forOwners := OwnerItem<G, C>(q, userset, regKey, ownerKey, regPoly, ownerPoly, id);
    var forRegs := MemberItem<G, C>(q, userset, regKey, ownerKey, regPoly, id);
    var first := RegisterEach(u, owners, forOwners);
    forall v
      ensures var was := Pending(u, v);
              Pending(RegisterEach(first, regs, forRegs), v)
              == was.(addedAsOwner := was.addedAsOwner + if v in owners then [forOwners(v).owner] else [],
                      addedAsMember := was.addedAsMember + if v in regs then [forRegs(v).member] else [])
    {
      RegisteredOnce(u, owners, forOwners, v);
      RegisteredOnce(first, regs, forRegs, v);
      NothingJoined(Pending(u, v));
      NothingJoined(Pending(first, v));
    }
  }

  /** What `initiate_decryption` queues. */
  lemma LookupTells<G, C>(u: Updates<G, C>, op: Uuid, info: UserSetInfo, requester: User, owners: seq<User>,
                          regs: seq<User>)
    requires Distinct(owners) && Elements(owners) == info.owners - {requester}
    requires Distinct(regs) && Elements(regs) == info.regs - {requester}
    ensures LookedUp(u, RegisterEach(u, owners + regs, LookupItem(op)), op, info, requester)
  {
    var item := LookupItem<G, C>(op);
    var first := RegisterEach(u, owners, item);
    RegisterConcat(u, owners, regs, item);
    forall v
      ensures var was := Pending(u, v);
              Pending(RegisterEach(first, regs, item), v)
              == was.(onLookup := was.onLookup + (if v in info.owners && v != requester then [op] else [])
                                               + (if v in info.regs && v != requester then [op] else []))
    {
      RegisteredOnce(u, owners, item, v);
      RegisteredOnce(first, regs, item, v);
      assert v in owners <==> v in Elements(owners);
      assert v in regs <==> v in Elements(regs);
      NothingJoined(Pending(u, v));
      NothingJoined(Pending(first, v));
    }
  }

  lemma NothingJoined<G, C>(was: UpdateResponse<G, C>)
    ensures was.(toDecrypt := was.toDecrypt + []) == was && was.(onLookup := was.onLookup + []) == was
    ensures was.(addedAsOwner := was.addedAsOwner + []) == was && was.(addedAsMember := was.addedAsMember + []) == was
    ensures was.(finished := was.finished + []) == was
  {
  }

  datatype UsersetResponse<G> = UsersetResponse(userset: Uuid, regKey: G, ownerKey: G, regShard: Shard,
                                                ownerShard: Shard)

  /** The shards of a new userset: the creator's two, and those of the owners and the regular members in order. */
  datatype Shards = Shards(creatorReg: Shard, creatorOwner: Shard, ownersReg: seq<Shard>, ownersOwner: seq<Shard>,
                           regsReg: seq<Shard>)

  datatype MakeResult<G> =
    | Made(response: UsersetResponse<G>)
    | UnknownUser(user: User)
    | SharingFailed(error: Shamir.Error)

  /** What is sent back; an exception that no handler catches leaves a request without a reply. */
  datatype Reply = Required(requirement: Requirement) | Acknowledged | Failed | NoReply

  method Enumerate(s: set<User>) returns (r: seq<User>)
    ensures Distinct(r) && Elements(r) == s
  {
    r := [];
    var rest := s;
    while rest != {}
      invariant rest <= s && Distinct(r) && Elements(r) == s - rest
      decreases |rest|
    {
      var x :| x in rest;
      ElementsPush(r, x);
      assert x !in Elements(r);
      r := r + [x];
      rest := rest - {x};
    }
  }

  lemma RegisterEachPush<G, C>(u: Updates<G, C>, users: seq<User>, i: nat, item: User -> Item<G, C>)
    requires i < |users|
    ensures RegisterEach(u, users[..i + 1], item)
         == Register(RegisterEach(u, users[..i], item), users[i], item(users[i]))
  {
    assert users[..i + 1][..i] == users[..i];
  }

  class ConnectedClientHandler<G, C> {
    const username: User
    const group: Group<G>
    const storage: ShortTermServerStorage
    const updates: UpdateManager<G, C>
    const decryptions: DecryptionsManager<Ciphertext<G, C>, G>

    constructor (username: User, group: Group<G>, storage: ShortTermServerStorage,
                 updates: UpdateManager<G, C>,
                 decryptions: DecryptionsManager<Ciphertext<G, C>, G>)
      ensures this.username == username && this.group == group && this.storage == storage
      ensures this.updates == updates && this.decryptions == decryptions
    {
      this.username, this.group, this.storage := username, group, storage;
      this.updates, this.decryptions := updates, decryptions;
    }

    // The stored IDs of these users, unless one of them has none.
    method ShardIds(users: seq<User>, userset: Uuid) returns (r: Option<seq<int>>)
      ensures r.Some? <==> forall u :: u in users ==> (u, userset) in storage.shardIds
      ensures r.Some? ==> r.value == Map(IdIn(storage.shardIds, userset), users)
    {
      var ids := [];
      for i := 0 to |users|
        invariant ids == Map(IdIn(storage.shardIds, userset), users[..i])
        invariant forall u :: u in users[..i] ==> (u, userset) in storage.shardIds
      {
        var id := storage.GetShardId(users[i], userset);
        if id.None? {
          return None;
        }
        ids := ids + [id.value];
      }
      assert users[..|users|] == users;
      return Some(ids);
    }

    /**
     * `make_userset`: stores the userset, shares two fresh private keys among its members and queues the shards
     * for everybody but the creator, who gets them in the response.
     */
    method MakeUserset(creator: User, owners: seq<User>, regs: seq<User>, ownersThreshold: nat, regsThreshold: nat,
                       sampled: Uuid, regPrivKey: nat, ownerPrivKey: nat, regSampler: nat -> nat,
                       ownerSampler: nat -> nat)
      returns (r: MakeResult<G>, ghost regPoly: seq<nat>, ghost ownerPoly: seq<nat>)
      requires Consistent(storage.Current()) && sampled !in storage.usersets
      requires |Elements(owners + [creator])| + |Elements(regs)| <= MAX_MEMBERS
      requires group.order >= 1 && regPrivKey < group.order && ownerPrivKey < group.order
      modifies storage, updates
      ensures Consistent(storage.Current())
      ensures r.UnknownUser? <==> !(Elements(owners + [creator]) + Elements(regs) <= old(storage.users).Keys)
      ensures r.UnknownUser? ==> storage.Current() == old(storage.Current())
      ensures !r.UnknownUser? ==> (r.Made? <==> Distinct(owners) && Distinct(regs))
      ensures !r.Made? ==> updates.updates == old(updates.updates)
      ensures !r.UnknownUser? ==> UsersetAdded(old(storage.Current()), storage.Current(), sampled,
                UserSetInfo(Elements(owners + [creator]), Elements(regs), ownersThreshold, regsThreshold))
      ensures |regPoly| == regsThreshold + 1 && regPoly[0] == regPrivKey
      ensures |ownerPoly| == ownersThreshold + 1 && ownerPoly[0] == ownerPrivKey
      ensures forall i :: 0 < i <= regsThreshold ==> regPoly[i] == regSampler(i - 1)
      ensures forall i :: 0 < i <= ownersThreshold ==> ownerPoly[i] == ownerSampler(i - 1)
      ensures r.Made? ==>
        var id, q := IdIn(storage.shardIds, sampled), group.order;
        var regKey, ownerKey := PublicKey(group, regPrivKey), PublicKey(group, ownerPrivKey);
        && r.response == UsersetResponse(sampled, regKey, ownerKey, ShardAt(q, regPoly)(id(creator)),
                                         ShardAt(q, ownerPoly)(id(creator)))
        && updates.updates == RegisterEach(
             RegisterEach(old(updates.updates), owners,
                          OwnerItem(q, sampled, regKey, ownerKey, regPoly, ownerPoly, id)),
             regs, MemberItem(q, sampled, regKey, ownerKey, regPoly, id))
      ensures r.Made? ==> MembersTold(old(updates.updates), updates.updates, storage.shardIds, group, sampled,
                                      regPoly, ownerPoly, owners, regs)
    {
      var regCoeffs := Shamir.SamplePoly(regPrivKey, regsThreshold, regSampler);
      var ownerCoeffs := Shamir.SamplePoly(ownerPrivKey, ownersThreshold, ownerSampler);
      regPoly, ownerPoly := regCoeffs, ownerCoeffs;
      var stored := storage.NewUserset(owners + [creator], regs, ownersThreshold, regsThreshold, sampled);
      if stored.UserNotFound? {
        return UnknownUser(stored.user), regPoly, ownerPoly;
      }
      var regKey, ownerKey := PublicKey(group, regPrivKey), PublicKey(group, ownerPrivKey);
      var dealt := DealShards(creator, owners, regs, sampled, regCoeffs, ownerCoeffs);
      if dealt.Err? {
        return SharingFailed(dealt.error), regPoly, ownerPoly;
      }
      var shards := dealt.value;
      QueueShards(owners, regs, sampled, regKey, ownerKey, shards, regPoly, ownerPoly);
      r := Made(UsersetResponse(sampled, regKey, ownerKey, shards.creatorReg, shards.creatorOwner));
    }

    /** The shards of all members, made from their stored IDs; refused when somebody is listed twice. */
    method DealShards(creator: User, owners: seq<User>, regs: seq<User>, userset: Uuid, regCoeffs: seq<nat>,
                      ownerCoeffs: seq<nat>)
      returns (r: Result<Shards>)
      requires group.order >= 1 && |regCoeffs| > 0 && |ownerCoeffs| > 0
      requires regCoeffs[0] < group.order && ownerCoeffs[0] < group.order
      requires MembersHaveIds(storage.shardIds, userset, Elements(owners + [creator]) + Elements(regs))
      ensures r.Ok? <==> Distinct(owners) && Distinct(regs)
      ensures forall u :: u in owners || u in regs ==> (u, userset) in storage.shardIds
      ensures r.Ok? ==>
        var id, q := IdIn(storage.shardIds, userset), group.order;
        r.value == Shards(ShardAt(q, regCoeffs)(id(creator)), ShardAt(q, ownerCoeffs)(id(creator)),
                          Map(ShardAt(q, regCoeffs), Map(id, owners)), Map(ShardAt(q, ownerCoeffs), Map(id, owners)),
                          Map(ShardAt(q, regCoeffs), Map(id, regs)))
    {
      var q := group.order;
      ghost var members := Elements(owners + [creator]) + Elements(regs);
      ElementsPush(owners, creator);
      assert creator in members;
      IdsValid(storage.shardIds, userset, members, owners);
      IdsValid(storage.shardIds, userset, members, regs);
      var creatorId := storage.GetShardId(creator, userset);
      var ownersIds := ShardIds(owners, userset);
      var regsIds := ShardIds(regs, userset);
      var creatorReg := Shamir.MakeShard(q, regCoeffs, creatorId.value);
      var creatorOwner := Shamir.MakeShard(q, ownerCoeffs, creatorId.value);
      var ownersReg := Shamir.MakeShards(q, regCoeffs, ownersIds.value);
      if ownersReg.Err? {
        return Err(ownersReg.error);
      }
      var ownersOwner := Shamir.MakeShards(q, ownerCoeffs, ownersIds.value);
      var regsReg := Shamir.MakeShards(q, regCoeffs, regsIds.value);
      if regsReg.Err? {
        return Err(regsReg.error);
      }
      return Ok(Shards(creatorReg.value, creatorOwner.value, ownersReg.value, ownersOwner.value, regsReg.value));
    }

    method QueueShards(owners: seq<User>, regs: seq<User>, userset: Uuid, regKey: G, ownerKey: G, shards: Shards,
                       ghost regPoly: seq<nat>, ghost ownerPoly: seq<nat>)
      requires group.order >= 1 && |regPoly| > 0 && |ownerPoly| > 0 && Distinct(owners) && Distinct(regs)
      requires regKey == PublicKey(group, regPoly[0]) && ownerKey == PublicKey(group, ownerPoly[0])
      requires forall u :: u in owners || u in regs ==> (u, userset) in storage.shardIds
      requires var id := IdIn(storage.shardIds, userset);
               && shards.ownersReg == Map(ShardAt(group.order, regPoly), Map(id, owners))
               && shards.ownersOwner == Map(ShardAt(group.order, ownerPoly), Map(id, owners))
               && shards.regsReg == Map(ShardAt(group.order, regPoly), Map(id, regs))
      modifies updates
      ensures var id := IdIn(storage.shardIds, userset);
              updates.updates == RegisterEach(
                RegisterEach(old(updates.updates), owners,
                             OwnerItem(group.order, userset, regKey, ownerKey, regPoly, ownerPoly, id)),
                regs, MemberItem(group.order, userset, regKey, ownerKey, regPoly, id))
      ensures MembersTold(old(updates.updates), updates.updates, storage.shardIds, group, userset, regPoly, ownerPoly,
                          owners, regs)
    {
      ghost var id := IdIn(storage.shardIds, userset);
      QueueOwners(owners, userset, regKey, ownerKey, shards.ownersReg, shards.ownersOwner, regPoly, ownerPoly, id);
      QueueMembers(regs, userset, regKey, ownerKey, shards.regsReg, regPoly, id);
      DealtTells(old(updates.updates), storage.shardIds, group, userset, regPoly, ownerPoly, owners, regs);
    }

    method QueueOwners(users: seq<User>, userset: Uuid, regKey: G, ownerKey: G, regShards: seq<Shard>,
                       ownerShards: seq<Shard>,
                       ghost regPoly: seq<nat>, ghost ownerPoly: seq<nat>, ghost id: User -> int)
      requires group.order >= 1
      requires regShards == Map(ShardAt(group.order, regPoly), Map(id, users))
      requires ownerShards == Map(ShardAt(group.order, ownerPoly), Map(id, users))
      modifies updates
      ensures updates.updates == RegisterEach(old(updates.updates), users,
                                              OwnerItem(group.order, userset, regKey, ownerKey, regPoly, ownerPoly, id))
    {
      ghost var item := OwnerItem<G, C>(group.order, userset, regKey, ownerKey, regPoly, ownerPoly, id);
      for i := 0 to |users|
        invariant updates.updates == RegisterEach(old(updates.updates), users[..i], item)
      {
        RegisterEachPush(old(updates.updates), users, i, item);
        updates.RegisterOwner(users[i], userset, regKey, ownerKey, regShards[i], ownerShards[i]);
      }
      assert users[..|users|] == users;
    }

    method QueueMembers(users: seq<User>, userset: Uuid, regKey: G, ownerKey: G, shards: seq<Shard>,
                        ghost regPoly: seq<nat>, ghost id: User -> int)
      requires group.order >= 1 && shards == Map(ShardAt(group.order, regPoly), Map(id, users))
      modifies updates
      ensures updates.updates == RegisterEach(old(updates.updates), users,
                                              MemberItem(group.order, userset, regKey, ownerKey, regPoly, id))
    {
      ghost var item := MemberItem<G, C>(group.order, userset, regKey, ownerKey, regPoly, id);
      for i := 0 to |users|
        invariant updates.updates == RegisterEach(old(updates.updates), users[..i], item)
      {
        RegisterEachPush(old(updates.updates), users, i, item);
        updates.RegisterRegMember(users[i], userset, regKey, ownerKey, shards[i]);
      }
      assert users[..|users|] == users;
    }

    /** Queues the ciphertext for every enrolled helper; nothing is queued when somebody has no shard ID. */
    method ContinueOperation(op: Uuid, record: PrepareRecord<Ciphertext<G, C>>)
      returns (ok: bool, ghost owners: seq<User>, ghost regs: seq<User>)
      modifies updates
      ensures Distinct(owners) && Elements(owners) == record.owners && Distinct(regs) && Elements(regs) == record.regs
      ensures updates.updates == Continued(old(updates.updates), storage.shardIds, op, record, owners, regs)
      ensures ok <==> AllHaveIds(storage.shardIds, record.userset, record.owners + record.regs + {record.requester})
      ensures ok ==>
        HelpersTold(old(updates.updates), updates.updates, storage.shardIds, op, record, owners, regs)
    {
      ghost var id := IdIn(storage.shardIds, record.userset);
      var ownersFound := Enumerate(record.owners);
      var regsFound := Enumerate(record.regs);
      owners, regs := ownersFound, regsFound;
      ok := false;
      assert forall u :: u in record.owners ==> u in owners;
      assert forall u :: u in record.regs ==> u in regs;
      var requesterId := storage.GetShardId(record.requester, record.userset);
      if requesterId.None? {
        return;
      }
      var ownersIds := ShardIds(ownersFound, record.userset);
      if ownersIds.None? {
        return;
      }
      var regsIds := ShardIds(regsFound, record.userset);
      if regsIds.None? {
        return;
      }
      ok := true;
      var forOwners, forRegs := [requesterId.value] + ownersIds.value, [requesterId.value] + regsIds.value;
      QueueToDecrypt(ownersFound, op, record.ciphertext, forOwners);
      QueueToDecrypt(regsFound, op, record.ciphertext, forRegs);
      ContinuedTells(old(updates.updates), storage.shardIds, op, record, owners, regs);
    }

    method QueueToDecrypt(users: seq<User>, op: Uuid, ciphertext: Ciphertext<G, C>, ids: seq<int>)
      modifies updates
      ensures updates.updates == RegisterEach(old(updates.updates), users, DecryptItem(op, ciphertext, ids))
    {
      for i := 0 to |users|
        invariant updates.updates == RegisterEach(old(updates.updates), users[..i], DecryptItem(op, ciphertext, ids))
      {
        RegisterEachPush(old(updates.updates), users, i, DecryptItem(op, ciphertext, ids));
        updates.RegisterDecryptionParticipating(users[i], op, ciphertext, ids);
      }
      assert users[..|users|] == users;
    }

    method FinishOperation(op: Uuid, record: CollectedRecord<G>) returns (ok: bool)
      modifies updates
      ensures ok <==> (record.requester, record.userset) in storage.shardIds
      ensures updates.updates == if !ok then old(updates.updates) else
                Register(old(updates.updates), record.requester,
                         Finished(FinishedOf(op, record, storage.shardIds[(record.requester, record.userset)])))
      ensures ok ==>
        var id := storage.shardIds[(record.requester, record.userset)];
        var was := Pending(old(updates.updates), record.requester);
        Pending(updates.updates, record.requester)
        == was.(finished := was.finished + [FinishedRecord(op, record.regParts, record.ownerParts,
                                                           record.regIds + [id], record.ownerIds + [id])])
    {
      var requesterId := storage.GetShardId(record.requester, record.userset);
      if requesterId.None? {
        return false;
      }
      updates.RegisterFinishedDecryption(record.requester, op, record.regParts, record.ownerParts,
                                         record.regIds + [requesterId.value], record.ownerIds + [requesterId.value]);
      return true;
    }

    /**
     * `initiate_decryption`: with both thresholds zero the operation is finished on the spot and never prepared;
     * otherwise it is prepared and every other member is looked up, twice when listed as both kinds.
     */
    method InitiateDecryption(userset: Uuid, ciphertext: Ciphertext<G, C>, sampled: Uuid)
      returns (r: Option<Uuid>, ghost notified: seq<User>)
      requires sampled !in decryptions.allOpIds && sampled !in decryptions.prep
      modifies updates, decryptions
      ensures userset !in storage.usersets ==>
                && r.None? && decryptions.Current() == old(decryptions.Current())
                && updates.updates == old(updates.updates)
      ensures userset in storage.usersets ==>
        var info := storage.usersets[userset];
        var m := old(decryptions.Current()).(all := old(decryptions.allOpIds) + {sampled});
        if info.ownersThreshold == 0 && info.regsThreshold == 0 then
          && decryptions.Current() == m
          && (r == Some(sampled) <==> (username, userset) in storage.shardIds) && (r.None? || r == Some(sampled))
          && updates.updates == if r.None? then old(updates.updates) else
               Register(old(updates.updates), username, Finished(FinishedOf(
                 sampled, NothingCollected(username, userset), storage.shardIds[(username, userset)])))
        else
          && r == Some(sampled)
          && decryptions.Current() == m.(prep := m.prep[sampled :=
               PrepareRecord(username, userset, ciphertext, info.ownersThreshold, info.regsThreshold, {}, {})])
          && multiset(notified) == multiset(info.owners - {username}) + multiset(info.regs - {username})
          && updates.updates == RegisterEach(old(updates.updates), notified, LookupItem(sampled))
          && LookedUp(old(updates.updates), updates.updates, sampled, info, username)
    {
      notified := [];
      var found := storage.GetUsersetInfo(userset);
      if found.UserSetNotFound? {
        return None, notified;
      }
      var info := found.value;
      var op := decryptions.NewOperation(sampled);
      if 0 == info.ownersThreshold && 0 == info.regsThreshold {
        var ok := FinishOperation(op, NothingCollected(username, userset));
        return if ok then Some(op) else None, notified;
      }
      decryptions.PrepareOperation(op, username, userset, ciphertext, info.ownersThreshold, info.regsThreshold);
      var owners := Enumerate(info.owners - {username});
      var regs := Enumerate(info.regs - {username});
      var members := owners + regs;
      notified := members;
      EnumerationMultiset(owners, info.owners - {username});
      EnumerationMultiset(regs, info.regs - {username});
      for i := 0 to |members|
        modifies updates
        invariant updates.updates == RegisterEach(old(updates.updates), members[..i], LookupItem(op))
      {
        RegisterEachPush(old(updates.updates), members, i, LookupItem(op));
        updates.RegisterLookup(members[i], op);
      }
      assert members[..|members|] == members;
      LookupTells(old(updates.updates), op, info, username, owners, regs);
      return Some(op), notified;
    }

    /** Enrols the client and, when that completes the enrolment, queues the ciphertext for all helpers. */
    method HandleParticipate(op: Uuid) returns (reply: Reply, ghost owners: seq<User>, ghost regs: seq<User>)
      requires decryptions.prep.Keys + decryptions.collected.Keys <= decryptions.allOpIds
      modifies updates, decryptions
      ensures reply.Failed? <==> UsersetOf(old(decryptions.Current()), old(decryptions.Current()), op).NoOperation?
                                 || username !in storage.users
      ensures reply.Failed? ==>
                decryptions.Current() == old(decryptions.Current()) && updates.updates == old(updates.updates)
      ensures !reply.Failed? ==>
        var m := old(decryptions.Current());
        var isOwner := UsersetOf(m, m, op).value in storage.users[username];
        var required := Required(if op in m.prep then Enrolment(m.prep[op], isOwner) else NotRequired);
        && decryptions.Current() == AfterParticipant(m, op, username, isOwner)
        && match Promoted(m, op, username, isOwner)
           case None => reply == required && updates.updates == old(updates.updates)
           case Some(r) =>
             && reply == (if AllHaveIds(storage.shardIds, r.userset, r.owners + r.regs + {r.requester}) then required
                          else NoReply)
             && Distinct(owners) && Elements(owners) == r.owners && Distinct(regs) && Elements(regs) == r.regs
             && updates.updates == Continued(old(updates.updates), storage.shardIds, op, r, owners, regs)
             && (reply != NoReply ==>
                   HelpersTold(old(updates.updates), updates.updates, storage.shardIds, op, r, owners, regs))
    {
      owners, regs := [], [];
      var userset := decryptions.GetOperationUserset(op);
      if userset.NoOperation? {
        return Failed, owners, regs;
      }
      var isOwner := storage.UserOwnsUserset(username, userset.value);
      if isOwner.UserNotFound? {
        return Failed, owners, regs;
      }
      var registered := decryptions.RegisterParticipant(op, username, isOwner.value);
      if registered.NoOperation? {
        return Failed, owners, regs;
      }
      var (record, requirement) := registered.value;
      if record.Some? {
        var ok;
        ok, owners, regs := ContinueOperation(op, record.value);
        if !ok {
          return NoReply, owners, regs;
        }
      }
      return Required(requirement), owners, regs;
    }

    /** Whether the client's part can be filed: it is a known user and has a shard ID in the operation's userset. */
    ghost predicate CanFile(op: Uuid)
      reads decryptions, storage
    {
      var u := UsersetOf(decryptions.Current(), decryptions.Current(), op);
      u.Done? && username in storage.users && (username, u.value) in storage.shardIds
    }

    /**
     * Files a part under the client's shard ID and role. Who has no shard ID gets no reply, and neither does the
     * completing part when the requester has none. A part that can be filed must not come before the collection.
     */
    method HandleSendPart(op: Uuid, part: G) returns (reply: Reply)
      requires CanFile(op) ==> op in decryptions.collected && op !in decryptions.prep
      modifies updates, decryptions
      ensures !old(CanFile(op)) ==>
        var u := UsersetOf(old(decryptions.Current()), old(decryptions.Current()), op);
        && decryptions.Current() == old(decryptions.Current()) && updates.updates == old(updates.updates)
        && reply == if u.Done? && (username, u.value) !in storage.shardIds then NoReply else Failed
      ensures old(CanFile(op)) ==>
        var m := old(decryptions.Current());
        var userset := m.collected[op].userset;
        var id, isOwner := storage.shardIds[(username, userset)], userset in storage.users[username];
        && decryptions.Current() == AfterPart(m, op, part, id, isOwner)
        && match Completed(m, op, part, id, isOwner)
           case None => reply == Acknowledged && updates.updates == old(updates.updates)
           case Some(r) =>
             if (r.requester, r.userset) !in storage.shardIds then
               reply == NoReply && updates.updates == old(updates.updates)
             else
               && reply == Acknowledged
               && updates.updates == Register(old(updates.updates), r.requester,
                    Finished(FinishedOf(op, r, storage.shardIds[(r.requester, r.userset)])))
    {
      var userset := decryptions.GetOperationUserset(op);
      if userset.NoOperation? {
        return Failed;
      }
      var id := storage.GetShardId(username, userset.value);
      if id.None? {
        return NoReply;
      }
      var isOwner := storage.UserOwnsUserset(username, userset.value);
      if isOwner.UserNotFound? {
        return Failed;
      }
      var record := decryptions.RegisterPart(op, part, id.value, isOwner.value);
      if record.Some? {
        var ok := FinishOperation(op, record.value);
        if !ok {
          return NoReply;
        }
      }
      return Acknowledged;
    }
  }

  lemma EnumerationMultiset(r: seq<User>, s: set<User>)
    requires Distinct(r) && Elements(r) == s
    ensures multiset(r) == multiset(s)
  {
    forall x ensures multiset(r)[x] == multiset(s)[x] {
      DistinctMultiplicity(r, x);
      assert x in r <==> x in Elements(r);
    }
  }

  /** Consistent storage gives `make_shards` distinct, non-zero IDs exactly when no user is listed twice. */
  lemma IdsValid(shardIds: map<(User, Uuid), int>, userset: Uuid, members: set<User>, users: seq<User>)
    requires MembersHaveIds(shardIds, userset, members) && Elements(users) <= members
    ensures forall u :: u in users ==> (u, userset) in shardIds
    ensures ValidIds(Map(IdIn(shardIds, userset), users)) <==> Distinct(users)
  {
    var ids := Map(IdIn(shardIds, userset), users);
    forall i | 0 <= i < |users| ensures users[i] in members && ids[i] == shardIds[(users[i], userset)] != 0 {
      assert users[i] in Elements(users);
    }
    if ValidIds(ids) {
      forall i, j | 0 <= i < j < |users| ensures users[i] != users[j] {
        assert ids[i] != ids[j];
      }
    }
  }
}
