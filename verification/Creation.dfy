/** From the creation of a userset, through its creator's request, to the creator's plaintext. */
module Creation {
  import opened Ranges
  import opened Packets
  import opened Shamir
  import opened ElGamal
  import opened PointCodec
  import opened ProfileStorage
  import opened ServerStorage
  import opened OperationRuns
  import opened OperationView
  import opened ClientHandler
  import opened EndToEnd
  import opened Numbers
  import Client
  import DecryptionsManager
  import Secrecy
  import U = UpdateManager

  /** The requester has asked for the plaintext m of c, and the server and the client have what they need for it. */
  ghost predicate Asked<G, K, M, C>(
    client: Client.Client<G, K, M, C>, m: M, r1: nat, r2: nat, nonce: nat, c: Ciphertext<G, C>, k: Keys, st: Storage,
    userset: Uuid, requester: User, op: Uuid)
    reads client
  {
    && Keyed(client.schema.group.order, k, st, userset, requester) && Noted(client, k, requester, userset, c, op)
    && c == Encrypt(client.schema, m, PublicKey(client.schema.group, k.regPoly[0]),
                    PublicKey(client.schema.group, k.ownerPoly[0]), r1, r2, nonce)
  }

  lemma {:induction false} FirstAdded(rs: seq<ProfileRecord>, r: ProfileRecord)
    requires forall i :: 0 <= i < |rs| ==> rs[i].userset != r.userset
    ensures FirstOf(rs + [r], r.userset) == Some(r)
  {
    if |rs| == 0 {
      assert rs + [r] == [r];
    } else {
      FirstAdded(rs[1..], r);
      assert (rs + [r])[1..] == rs[1..] + [r];
    }
  }

  lemma CreatedKeyed(q: nat, k: Keys, before: Storage, st: Storage, userset: Uuid, info: UserSetInfo, requester: User)
    requires q > MAX_MEMBERS && Consistent(before) && UsersetAdded(before, st, userset, info)
    requires requester in info.owners
    requires |k.regPoly| == info.regsThreshold + 1 && |k.ownerPoly| == info.ownersThreshold + 1
    requires k.regPoly[0] < q && k.ownerPoly[0] < q && k.id == IdIn(st.shardIds, userset)
    ensures Keyed(q, k, st, userset, requester) && IsShardId(k.id(requester))
  {
    AddedConsistent(before, st, userset, info);
    assert MembersHaveIds(st.shardIds, userset, info.Members());
  }

  // ------------------------------------------------------------ what few shards tell

  /** The shards of a layer that these users get. */
  function DealtShards(q: nat, k: Keys, layer: Layer, users: seq<User>): seq<Shard>
    requires q >= 1
  {
    Map(ShardAt(q, LayerPoly(k, layer)), Map(k.id, users))
  }

  /** By exactly one choice of the other coefficients, this secret is shared with these users' shards. */
  ghost predicate FitsOnce(q: nat, k: Keys, layer: Layer, users: seq<User>, secret: nat)
    requires q >= 1
  {
    var n, shards := |users| + 1, DealtShards(q, k, layer, users);
    exists coeffs :: |coeffs| == n && Secrecy.Shares(q, coeffs, secret, shards)
                     && forall other :: |other| == n && Secrecy.Shares(q, other, secret, shards) ==> other == coeffs
  }

  /** As many members' shards of a layer as its threshold fit every secret. */
  ghost predicate HidesSecret(q: nat, k: Keys, layer: Layer, members: set<User>)
    requires q >= 1
  {
    forall users, secret: nat {:trigger FitsOnce(q, k, layer, users, secret)} ::
      Distinct(users) && Elements(users) <= members && |users| + 1 == |LayerPoly(k, layer)| && secret < q ==>
        FitsOnce(q, k, layer, users, secret)
  }

  lemma DealtUsable(q: nat, k: Keys, layer: Layer, users: seq<User>, members: set<User>)
    requires Prime(q) && q > MAX_MEMBERS && GoodIds(k.id, members) && Distinct(users) && Elements(users) <= members
    ensures Secrecy.UsableShards(q, DealtShards(q, k, layer, users))
  {
    var ids, shards := Map(k.id, users), DealtShards(q, k, layer, users);
    MapDistinct(k.id, users, members);
    SmallIdsDistinctMod(q, ids);
    assert Ids(shards) == ids;
    forall x | x in ids ensures !Divides(q, x) {
      if Divides(q, x) {
        var i := DividesElim(q, x);
        SmallMultiple(q, i, x);
      }
    }
  }

  lemma DealtFitOnce(q: nat, k: Keys, layer: Layer, users: seq<User>, members: set<User>, secret: nat)
    requires Prime(q) && q > MAX_MEMBERS && GoodIds(k.id, members) && Distinct(users) && Elements(users) <= members
    requires secret < q
    ensures FitsOnce(q, k, layer, users, secret)
  {
    var shards := DealtShards(q, k, layer, users);
    DealtUsable(q, k, layer, users, members);
    var coeffs := Secrecy.EverySecretFits(q, shards, |users|, secret);
    forall other | |other| == |users| + 1 && Secrecy.Shares(q, other, secret, shards) ensures other == coeffs {
      Secrecy.OnlyOneFits(q, shards, |users|, secret, other, coeffs);
    }
  }

  /** So the shards that are dealt in a stored userset tell nothing about the keys while they are that few. */
  lemma KeyedHides(q: nat, k: Keys, st: Storage, userset: Uuid, requester: User)
    requires Keyed(q, k, st, userset, requester)
    ensures Prime(q) ==> HidesSecret(q, k, RegLayer, st.usersets[userset].Members())
    ensures Prime(q) ==> HidesSecret(q, k, OwnerLayer, st.usersets[userset].Members())
  {
    var members := st.usersets[userset].Members();
    StoredIdsGood(k, st, userset);
    forall layer, users, secret: nat | Prime(q) && Distinct(users) && Elements(users) <= members && secret < q
      ensures FitsOnce(q, k, layer, users, secret)
    {
      DealtFitOnce(q, k, layer, users, members, secret);
    }
  }

  // ----------------------------------------------------------- creating and asking

  /** The secret first and then the sampler's values, one for each member that has to help. */
  predicate SampledFrom(poly: seq<nat>, secret: nat, threshold: nat, sampler: nat -> nat) {
    && |poly| == threshold + 1 && poly[0] == secret
    && forall i :: 0 < i <= threshold ==> poly[i] == sampler(i - 1)
  }

  /** An owner creates a userset and keeps its own shards in the profile. */
  method Create<G(!new), K(!new), M(!new), C(!new)>(
    handler: ConnectedClientHandler<G, C>, client: Client.Client<G, K, M, C>, toPoint: G -> Point,
    owners: seq<User>, regs: seq<User>, ownersThreshold: nat, regsThreshold: nat, userset: Uuid,
    regPrivKey: nat, ownerPrivKey: nat, regSampler: nat -> nat, ownerSampler: nat -> nat, fileNonce: nat)
    returns (made: bool, ghost k: Keys)
    requires client.Valid() && ValidParams(client.params) && handler.group.order == client.params.order > MAX_MEMBERS
    requires forall g {:trigger toPoint(g)} :: ValidPoint(client.params.curve, toPoint(g))
    requires forall i :: 0 <= i < |client.records| ==> client.records[i].userset != userset
    requires Consistent(handler.storage.Current()) && userset !in handler.storage.usersets
    requires |Elements(owners + [handler.username])| + |Elements(regs)| <= MAX_MEMBERS
    requires regPrivKey < handler.group.order && ownerPrivKey < handler.group.order
    modifies handler.storage, handler.updates, client.profile, client`records, client`nonces
    ensures client.Valid()
    ensures made <==> Elements(owners + [handler.username]) + Elements(regs) <= old(handler.storage.users).Keys
                      && Distinct(owners) && Distinct(regs)
    ensures SampledFrom(k.regPoly, regPrivKey, regsThreshold, regSampler)
    ensures SampledFrom(k.ownerPoly, ownerPrivKey, ownersThreshold, ownerSampler)
    ensures made ==> Keyed(handler.group.order, k, handler.storage.Current(), userset, handler.username)
    ensures made && Prime(handler.group.order) ==>
              var members := Elements(owners + [handler.username]) + Elements(regs);
              HidesSecret(handler.group.order, k, RegLayer, members)
              && HidesSecret(handler.group.order, k, OwnerLayer, members)
    ensures made ==> Kept(client, handler.group, toPoint, k, userset, handler.username)
    ensures made ==> MembersTold(old(handler.updates.updates), handler.updates.updates, handler.storage.shardIds,
                                 handler.group, userset, k.regPoly, k.ownerPoly, owners, regs)
  {
    ghost var before := handler.storage.Current();
    var r; ghost var regPoly, ownerPoly;
    r, regPoly, ownerPoly := handler.MakeUserset(handler.username, owners, regs, ownersThreshold, regsThreshold,
                                                 userset, regPrivKey, ownerPrivKey, regSampler, ownerSampler);
    k := Keys(regPoly, ownerPoly, IdIn(handler.storage.shardIds, userset));
    if !r.Made? {
      return false, k;
    }
    ghost var info := UserSetInfo(Elements(owners + [handler.username]), Elements(regs), ownersThreshold,
                                  regsThreshold);
    ElementsPush(owners, handler.username);
    CreatedKeyed(handler.group.order, k, before, handler.storage.Current(), userset, info, handler.username);
    KeyedHides(handler.group.order, k, handler.storage.Current(), userset, handler.username);
    Keep(client, userset, r.response.regKey, r.response.ownerKey, r.response.regShard, r.response.ownerShard, toPoint,
         fileNonce, handler.group, k, handler.username);
    made := true;
  }

  /** The first record of the userset in the profile has the public keys in order and this owner's shards. */
  ghost predicate Kept<G, K, M, C>(client: Client.Client<G, K, M, C>, g: Group<G>, toPoint: G -> Point, k: Keys,
                                   userset: Uuid, owner: User)
    requires g.order >= 1 && |k.regPoly| > 0 && |k.ownerPoly| > 0
    reads client
  {
    FirstOf(client.records, userset)
    == Some(ProfileRecord(userset, toPoint(PublicKey(g, k.regPoly[0])), toPoint(PublicKey(g, k.ownerPoly[0])),
                          ShardAt(g.order, k.regPoly)(k.id(owner)),
                          Some(ShardAt(g.order, k.ownerPoly)(k.id(owner)))))
  }

  /** An owner's client adds the keys and shards it was given to the profile. */
  method Keep<G(!new), K(!new), M(!new), C(!new)>(
    client: Client.Client<G, K, M, C>, userset: Uuid, regKey: G, ownerKey: G, regShard: Shard, ownerShard: Shard,
    toPoint: G -> Point, nonce: nat, ghost g: Group<G>, ghost k: Keys, ghost owner: User)
    requires client.Valid() && ValidParams(client.params) && g.order == client.params.order
    requires forall x {:trigger toPoint(x)} :: ValidPoint(client.params.curve, toPoint(x))
    requires forall i :: 0 <= i < |client.records| ==> client.records[i].userset != userset
    requires |k.regPoly| > 0 && |k.ownerPoly| > 0 && IsShardId(k.id(owner))
    requires regKey == PublicKey(g, k.regPoly[0]) && ownerKey == PublicKey(g, k.ownerPoly[0])
    requires regShard == ShardAt(g.order, k.regPoly)(k.id(owner))
    requires ownerShard == ShardAt(g.order, k.ownerPoly)(k.id(owner))
    modifies client.profile, client`records, client`nonces
    ensures client.Valid() && Kept(client, g, toPoint, k, userset, owner)
  {
    var record := ProfileRecord(userset, toPoint(regKey), toPoint(ownerKey), regShard, Some(ownerShard));
    FirstAdded(client.records, record);
    client.AddProfileRecord(record, nonce);
  }

  /** A co-owner's client that handles the record queued for it when the userset was made keeps the same. */
  method HandleAddedAsOwner<G(!new), K(!new), M(!new), C(!new)>(
    client: Client.Client<G, K, M, C>, record: OwnerRecord<G>, toPoint: G -> Point, nonce: nat, ghost g: Group<G>,
    ghost k: Keys, ghost st: Storage, ghost owner: User, ghost before: U.Updates<G, C>, ghost after: U.Updates<G, C>,
    ghost owners: seq<User>, ghost regs: seq<User>)
    requires client.Valid() && ValidParams(client.params) && g.order == client.params.order
    requires forall x {:trigger toPoint(x)} :: ValidPoint(client.params.curve, toPoint(x))
    requires forall i :: 0 <= i < |client.records| ==> client.records[i].userset != record.member.userset
    requires Keyed(g.order, k, st, record.member.userset, owner) && owner in owners
    requires MembersTold(before, after, st.shardIds, g, record.member.userset, k.regPoly, k.ownerPoly, owners, regs)
    requires U.Pending(after, owner).addedAsOwner == U.Pending(before, owner).addedAsOwner + [record]
    modifies client.profile, client`records, client`nonces
    ensures client.Valid() && Kept(client, g, toPoint, k, record.member.userset, owner)
  {
    QueuedRecord(g, k, st, owner, before, after, owners, regs, record);
    Keep(client, record.member.userset, record.member.regKey, record.member.ownerKey, record.member.regShard,
         record.ownerShard, toPoint, nonce, g, k, owner);
  }

  lemma QueuedRecord<G, C>(g: Group<G>, k: Keys, st: Storage, owner: User, before: U.Updates<G, C>,
                           after: U.Updates<G, C>, owners: seq<User>, regs: seq<User>, record: OwnerRecord<G>)
    requires Keyed(g.order, k, st, record.member.userset, owner) && owner in owners
    requires MembersTold(before, after, st.shardIds, g, record.member.userset, k.regPoly, k.ownerPoly, owners, regs)
    requires U.Pending(after, owner).addedAsOwner == U.Pending(before, owner).addedAsOwner + [record]
    ensures record == OwnerRecord(MemberRecord(record.member.userset, PublicKey(g, k.regPoly[0]),
                                               PublicKey(g, k.ownerPoly[0]),
                                               ShardAt(g.order, k.regPoly)(k.id(owner))),
                                  ShardAt(g.order, k.ownerPoly)(k.id(owner)))
    ensures IsShardId(k.id(owner))
  {
    StoredIdsGood(k, st, record.member.userset);
    assert U.Pending(after, owner).addedAsOwner[|U.Pending(before, owner).addedAsOwner|] == record;
  }

  /** What the owner encrypts is encrypted under the userset's public keys, each layer under its own. */
  method EncryptKept<G(!new), K(!new), M(!new), C(!new)>(
    client: Client.Client<G, K, M, C>, ghost toPoint: G -> Point, fromPoint: Point -> G, userset: Uuid, m: M,
    r1: nat, r2: nat, nonce: nat, ghost k: Keys, ghost owner: User)
    returns (c: Ciphertext<G, C>)
    requires client.Valid() && client.schema.group.order >= 1 && |k.regPoly| > 0 && |k.ownerPoly| > 0
    requires forall g {:trigger toPoint(g)} :: fromPoint(toPoint(g)) == g
    requires Kept(client, client.schema.group, toPoint, k, userset, owner)
    ensures c == Encrypt(client.schema, m, PublicKey(client.schema.group, k.regPoly[0]),
                         PublicKey(client.schema.group, k.ownerPoly[0]), r1, r2, nonce)
  {
    var encrypted := client.Encrypt(userset, m, fromPoint, r1, r2, nonce);
    c := encrypted.value;
  }

  /** The client notes what it asked for. */
  method Note<G(!new), K(!new), M(!new), C(!new)>(
    client: Client.Client<G, K, M, C>, userset: Uuid, c: Ciphertext<G, C>, op: Uuid, ghost toPoint: G -> Point,
    ghost k: Keys, ghost owner: User)
    requires client.schema.group.order >= 2 && |k.regPoly| > 0 && |k.ownerPoly| > 0 && op !in client.pending
    requires Kept(client, client.schema.group, toPoint, k, userset, owner)
    modifies client`pending
    ensures Noted(client, k, owner, userset, c, op)
  {
    client.Decrypt(op, userset, c);
  }

  /** The owner encrypts for the userset and asks for the decryption; then everything is in place. */
  method Ask<G(!new), K(!new), M(!new), C(!new)>(
    handler: ConnectedClientHandler<G, C>, client: Client.Client<G, K, M, C>, userset: Uuid,
    ghost toPoint: G -> Point, fromPoint: Point -> G, m: M, r1: nat, r2: nat, nonce: nat, op: Uuid, ghost k: Keys)
    returns (c: Ciphertext<G, C>)
    requires client.Valid() && client.schema.group == handler.group
    requires forall g {:trigger toPoint(g)} :: fromPoint(toPoint(g)) == g
    requires Keyed(handler.group.order, k, handler.storage.Current(), userset, handler.username)
    requires Kept(client, handler.group, toPoint, k, userset, handler.username)
    requires op !in client.pending && op !in handler.decryptions.allOpIds && op !in handler.decryptions.prep
    modifies handler.updates, handler.decryptions, client`pending
    ensures Asked(client, m, r1, r2, nonce, c, k, handler.storage.Current(), userset, handler.username, op)
    ensures var info := handler.storage.usersets[userset];
            info.ownersThreshold > 0 || info.regsThreshold > 0 ==>
              && op in handler.decryptions.prep && handler.decryptions.prep[op]
                 == DecryptionsManager.PrepareRecord(handler.username, userset, c, info.ownersThreshold,
                                                     info.regsThreshold, {}, {})
              && LookedUp(old(handler.updates.updates), handler.updates.updates, op, info, handler.username)
  {
    c := EncryptKept(client, toPoint, fromPoint, userset, m, r1, r2, nonce, k, handler.username);
    var asked; ghost var notified;
    asked, notified := handler.InitiateDecryption(userset, c, op);
    Note(client, userset, c, op, toPoint, k, handler.username);
  }

  // --------------------------------------------------------------- what helpers send

  /**
   * Every helper of a layer computed its part from the last record queued for it, with its shard of the layer:
   * from that record's ciphertext and its IDs.
   */
  ghost predicate PartsComputed<G, C>(g: Group<G>, k: Keys, layer: Layer, helpers: set<User>, after: U.Updates<G, C>,
                                      part: User -> G)
  {
    g.order >= 2
    && forall u :: u in helpers && |U.Pending(after, u).toDecrypt| > 0 ==>
         var sent := U.Pending(after, u).toDecrypt[|U.Pending(after, u).toDecrypt| - 1];
         GetPart(g, LayerElement(sent.ciphertext, layer), ShardAt(g.order, LayerPoly(k, layer))(k.id(u)), sent.ids)
         == Ok(part(u))
  }

  /** The stored list is the one by which helpers take part. */
  lemma StoredListed(k: Keys, st: Storage, userset: Uuid, requester: User, helpers: seq<User>, ids: seq<int>)
    requires userset in st.usersets && IdsStored(k, st, userset)
    requires Elements(helpers) + {requester} <= st.usersets[userset].Members()
    requires ListsStoredIds(ids, st.shardIds, userset, requester, helpers)
    ensures ids == HelperIds(k.id(requester), helpers, k.id)
  {
    assert requester in Elements(helpers) + {requester};
    forall i | 0 <= i < |helpers| ensures ids[i + 1] == k.id(helpers[i]) {
      assert helpers[i] in Elements(helpers);
    }
  }

  /** Helpers that compute their parts from what `continue_operation` queued for them take part in their layers. */
  lemma ToldParticipate<G, C>(
    g: Group<G>, k: Keys, st: Storage, op: Uuid, p: DecryptionsManager.PrepareRecord<Ciphertext<G, C>>,
    listedOwners: seq<User>, listedRegs: seq<User>, before: U.Updates<G, C>, after: U.Updates<G, C>, part: User -> G)
    requires Staffed(g.order, k, st, p.userset, p.requester, p.owners, p.regs)
    requires EndToEnd.Listed(p, listedOwners, listedRegs)
    requires HelpersTold(before, after, st.shardIds, op, p, listedOwners, listedRegs)
    requires PartsComputed(g, k, OwnerLayer, p.owners, after, part)
    requires PartsComputed(g, k, RegLayer, p.regs, after, part)
    ensures LayerParticipates(g, p.ciphertext, k, OwnerLayer, p.requester, listedOwners, p.owners, part)
    ensures LayerParticipates(g, p.ciphertext, k, RegLayer, p.requester, listedRegs, p.regs, part)
  {
    StaffedApart(g.order, k, st, p.userset, p.requester, p.owners, p.regs);
    var ownerIds, regIds := ToldStored(k, st, op, p, listedOwners, listedRegs, before, after);
    var forOwners := ToDecryptRecord(op, p.ciphertext, ownerIds);
    var forRegs := ToDecryptRecord(op, p.ciphertext, regIds);
    ToldOnce(before, after, op, p, ownerIds, regIds);
    LayerTold(g, k, OwnerLayer, p.requester, listedOwners, p.owners, before, after, forOwners, part);
    LayerTold(g, k, RegLayer, p.requester, listedRegs, p.regs, before, after, forRegs, part);
  }

  lemma StaffedApart(q: nat, k: Keys, st: Storage, userset: Uuid, requester: User, owners: set<User>, regs: set<User>)
    requires Staffed(q, k, st, userset, requester, owners, regs)
    ensures owners !! regs && userset in st.usersets && IdsStored(k, st, userset)
    ensures owners + regs + {requester} <= st.usersets[userset].Members()
  {
  }

  lemma ToldStored<G, C>(
    k: Keys, st: Storage, op: Uuid, p: DecryptionsManager.PrepareRecord<Ciphertext<G, C>>, listedOwners: seq<User>,
    listedRegs: seq<User>, before: U.Updates<G, C>, after: U.Updates<G, C>)
    returns (ownerIds: seq<int>, regIds: seq<int>)
    requires p.userset in st.usersets && IdsStored(k, st, p.userset)
    requires p.owners + p.regs + {p.requester} <= st.usersets[p.userset].Members()
    requires Elements(listedOwners) == p.owners && Elements(listedRegs) == p.regs
    requires HelpersTold(before, after, st.shardIds, op, p, listedOwners, listedRegs)
    ensures ownerIds == HelperIds(k.id(p.requester), listedOwners, k.id)
    ensures regIds == HelperIds(k.id(p.requester), listedRegs, k.id)
    ensures ToldIds(before, after, op, p, ownerIds, regIds)
  {
    ownerIds, regIds :| && ListsStoredIds(ownerIds, st.shardIds, p.userset, p.requester, listedOwners)
                        && ListsStoredIds(regIds, st.shardIds, p.userset, p.requester, listedRegs)
                        && ToldIds(before, after, op, p, ownerIds, regIds);
    StoredListed(k, st, p.userset, p.requester, listedOwners, ownerIds);
    StoredListed(k, st, p.userset, p.requester, listedRegs, regIds);
  }

  lemma ToldOnce<G, C>(before: U.Updates<G, C>, after: U.Updates<G, C>, op: Uuid,
                       p: DecryptionsManager.PrepareRecord<Ciphertext<G, C>>, ownerIds: seq<int>, regIds: seq<int>)
    requires ToldIds(before, after, op, p, ownerIds, regIds) && p.owners !! p.regs
    ensures forall u :: u in p.owners ==>
              U.Pending(after, u).toDecrypt
              == U.Pending(before, u).toDecrypt + [ToDecryptRecord(op, p.ciphertext, ownerIds)]
    ensures forall u :: u in p.regs ==>
              U.Pending(after, u).toDecrypt
              == U.Pending(before, u).toDecrypt + [ToDecryptRecord(op, p.ciphertext, regIds)]
  {
  }

  lemma LayerTold<G, C>(
    g: Group<G>, k: Keys, layer: Layer, requester: User, listed: seq<User>, helpers: set<User>,
    before: U.Updates<G, C>, after: U.Updates<G, C>, record: ToDecryptRecord<G, C>, part: User -> G)
    requires Distinct(listed) && Elements(listed) == helpers
    requires record.ids == HelperIds(k.id(requester), listed, k.id)
    requires forall u :: u in helpers ==> U.Pending(after, u).toDecrypt == U.Pending(before, u).toDecrypt + [record]
    requires PartsComputed(g, k, layer, helpers, after, part)
    ensures LayerParticipates(g, record.ciphertext, k, layer, requester, listed, helpers, part)
  {
  }

  /**
   * Once asked, however the storage grows meanwhile: when enough helpers have enrolled and sent their parts, the
   * client that handles the finished record ends up with the plaintext.
   */
  lemma AskedDecrypts<G(!new), K(!new), M(!new), C(!new)>(
    client: Client.Client<G, K, M, C>, m: M, r1: nat, r2: nat, nonce: nat, c: Ciphertext<G, C>, k: Keys, st: Storage,
    userset: Uuid, requester: User, owners: set<User>, regs: set<User>,
    sys: System<Ciphertext<G, C>, G>, es: seq<Event<Ciphertext<G, C>, G>>, op: Uuid, enrolling: seq<User>,
    listedOwners: seq<User>, listedRegs: seq<User>, before: U.Updates<G, C>, after: U.Updates<G, C>,
    sending: seq<User>, part: User -> G)
    requires ValidSchema(client.schema) && Asked(client, m, r1, r2, nonce, c, k, st, userset, requester, op)
    requires var info := st.usersets[userset];
             && requester !in owners && owners <= info.owners && |owners| == info.ownersThreshold
             && regs <= info.regs - info.owners && |regs| == info.regsThreshold && owners + regs != {}
    requires var info := st.usersets[userset];
             var p := DecryptionsManager.PrepareRecord(requester, userset, c, info.ownersThreshold,
                                                       info.regsThreshold, owners, regs);
             && HelpersTold(before, after, st.shardIds, op, p, listedOwners, listedRegs)
             && EndToEnd.Listed(p, listedOwners, listedRegs)
    requires PartsComputed(client.schema.group, k, OwnerLayer, owners, after, part)
    requires PartsComputed(client.schema.group, k, RegLayer, regs, after, part)
    requires Helped(sys, es, op, requester, userset, c, st.usersets[userset], owners + regs, enrolling, sending, part,
                    k.id)
    ensures var done := ViewOf(Run(sys, es), op).completed;
            |done| == 1 && client.Outcome(FinishedOf(op, done[0], k.id(requester))) == Client.Decrypted(m)
  {
    var info := st.usersets[userset];
    ToldParticipate(client.schema.group, k, st, op,
                    DecryptionsManager.PrepareRecord(requester, userset, c, info.ownersThreshold, info.regsThreshold,
                                                     owners, regs),
                    listedOwners, listedRegs, before, after, part);
    ClientDecrypts(client, m, r1, r2, nonce, c, k, st, userset, requester, owners, regs, sys, es, op, enrolling,
                   listedOwners, listedRegs, sending, part);
  }
}
