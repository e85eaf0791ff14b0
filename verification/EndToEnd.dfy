/** Threshold decryption from the userset's creation to the requester's plaintext. */
module EndToEnd {
  import opened Numbers
  import opened Ranges
  import opened Interpolation
  import opened Packets
  import opened Shamir
  import opened ElGamal
  import opened DecryptionsManager
  import opened OperationRuns
  import opened OperationView
  import opened ServerStorage
  import opened ClientHandler
  import Client
  import opened ProfileStorage

  /** What `decrypt_get_2l` gives for a member holding the shard of this polynomial at its ID. */
  function PartResult<G>(g: Group<G>, c: G, coeffs: seq<nat>, id: int, ids: seq<int>): Result<G>
    requires g.order >= 2
  {
    GetPart(g, c, ShardAt(g.order, coeffs)(id), ids)
  }

  /** The two polynomials of a userset and the members' shard IDs. */
  datatype Keys = Keys(regPoly: seq<nat>, ownerPoly: seq<nat>, id: User -> int)

  function LayerPoly(k: Keys, layer: Layer): seq<nat> {
    if layer.RegLayer? then k.regPoly else k.ownerPoly
  }

  /** Members have different IDs between 1 and 255. */
  ghost predicate GoodIds(id: User -> int, members: set<User>) {
    && (forall u :: u in members ==> IsShardId(id(u)))
    && (forall u, v :: u in members && v in members && u != v ==> id(u) != id(v))
  }

  /** What a helper of a layer sends, knowing the IDs of all helpers in the order the server listed them. */
  function HelperPart<G, C>(g: Group<G>, c: Ciphertext<G, C>, k: Keys, layer: Layer, requester: User,
                            helpers: seq<User>, user: User): Result<G>
    requires g.order >= 2
  {
    PartResult(g, LayerElement(c, layer), LayerPoly(k, layer), k.id(user), HelperIds(k.id(requester), helpers, k.id))
  }

  // ------------------------------------------------------------ IDs of one layer

  lemma MapDistinct(id: User -> int, users: seq<User>, members: set<User>)
    requires GoodIds(id, members) && Distinct(users) && Elements(users) <= members
    ensures Distinct(Map(id, users)) && forall x :: x in Map(id, users) ==> IsShardId(x)
  {
    var ids := Map(id, users);
    forall i | 0 <= i < |users| ensures users[i] in members {
      assert users[i] in Elements(users);
    }
    forall i, j | 0 <= i < j < |ids| ensures ids[i] != ids[j] {
      assert users[i] != users[j];
    }
  }

  lemma SmallIdsDistinctMod(q: int, ids: seq<int>)
    requires q > MAX_MEMBERS && Distinct(ids) && forall x :: x in ids ==> IsShardId(x)
    ensures DistinctMod(q, ids)
  {
    forall i, j | 0 <= i < j < |ids| ensures !Congruent(ids[i], ids[j], q) {
      assert ids[i] in ids && ids[j] in ids && ids[i] != ids[j];
      if Congruent(ids[i], ids[j], q) {
        var k := DividesElim(q, ids[i] - ids[j]);
        SmallMultiple(q, k, ids[i] - ids[j]);
      }
    }
  }

  lemma {:induction false} MapMultiset(id: User -> int, s: seq<User>, t: seq<User>)
    requires multiset(s) == multiset(t)
    ensures multiset(Map(id, s)) == multiset(Map(id, t))
  {
    if |s| == 0 {
      assert |multiset(t)| == 0;
    } else {
      var x := s[|s| - 1];
      assert x in multiset(t);
      var i :| 0 <= i < |t| && t[i] == x;
      assert s == s[..|s| - 1] + [x];
      WithoutMultiset(t, i);
      MapMultiset(id, s[..|s| - 1], Without(t, i));
      MapWithout(id, t, i);
      MapPush(id, s[..|s| - 1], x);
    }
  }

  lemma MapWithout(id: User -> int, t: seq<User>, i: nat)
    requires i < |t|
    ensures multiset(Map(id, t)) == multiset(Map(id, Without(t, i))) + multiset{id(t[i])}
  {
    assert Map(id, Without(t, i)) == Without(Map(id, t), i);
    WithoutMultiset(Map(id, t), i);
  }

  /** The IDs the requester uses: the helpers' in order of arrival, and its own at the end. */
  function RequesterIds(k: Keys, arrived: seq<User>, requester: User): seq<int> {
    Map(k.id, arrived) + [k.id(requester)]
  }

  ghost predicate OneLayer(k: Keys, requester: User, listed: seq<User>, arrived: seq<User>, members: set<User>) {
    && GoodIds(k.id, members) && Distinct(listed) && Distinct(arrived) && Elements(listed) == Elements(arrived)
    && requester !in Elements(listed) && Elements(arrived) + {requester} <= members
  }

  /** Both lists of IDs of a layer are arrangements of the same distinct IDs. */
  lemma LayerIds(q: int, k: Keys, requester: User, listed: seq<User>, arrived: seq<User>, members: set<User>)
    requires OneLayer(k, requester, listed, arrived, members) && q > MAX_MEMBERS
    ensures multiset(HelperIds(k.id(requester), listed, k.id)) == multiset(RequesterIds(k, arrived, requester))
    ensures DistinctMod(q, RequesterIds(k, arrived, requester)) && ValidIds(RequesterIds(k, arrived, requester))
    ensures |listed| == |arrived|
  {
    var all := arrived + [requester];
    SameElements(listed, arrived);
    MapMultiset(k.id, listed, arrived);
    ElementsPush(arrived, requester);
    assert forall u :: u in arrived ==> u in Elements(arrived);
    assert Distinct(all);
    MapDistinct(k.id, all, members);
    MapPush(k.id, arrived, requester);
    SmallIdsDistinctMod(q, RequesterIds(k, arrived, requester));
    DistinctBySize(listed);
    DistinctBySize(arrived);
  }

  /** parts[i] came from the i-th arrival, by the list of IDs the server told the helpers. */
  ghost predicate PartsArrived<G, C>(g: Group<G>, c: Ciphertext<G, C>, k: Keys, layer: Layer, requester: User,
                                     listed: seq<User>, arrived: seq<User>, parts: seq<G>)
  {
    && g.order >= 2 && |parts| == |arrived|
    && forall i :: 0 <= i < |arrived| ==> HelperPart(g, c, k, layer, requester, listed, arrived[i]) == Ok(parts[i])
  }

  /**
   * One layer: helpers use the requester-first list, the requester the arrival-order, requester-last list. The
   * requester's part is not refused, and all parts multiply to the decryption of the layer.
   */
  lemma LayerDecrypts<G(!new), C>(g: Group<G>, c: Ciphertext<G, C>, k: Keys, layer: Layer, requester: User,
                                  listed: seq<User>, arrived: seq<User>, members: set<User>, parts: seq<G>)
    requires PrimeOrdered(g) && g.order > MAX_MEMBERS && OneLayer(k, requester, listed, arrived, members)
    requires |LayerPoly(k, layer)| == |listed| + 1 && LayerPoly(k, layer)[0] < g.order
    requires PartsArrived(g, c, k, layer, requester, listed, arrived, parts)
    ensures var own := RequesterPart(g, c, k, layer, requester, arrived);
            own.Ok? && Accumulate(g.op, g.id, parts + [own.value])
                       == GroupPow(g, LayerElement(c, layer), LayerPoly(k, layer)[0])
  {
    LayerIds(g.order, k, requester, listed, arrived, members);
    RequesterAccepted(g, c, k, layer, requester, arrived);
    LayerParts(g, c, k, layer, requester, listed, arrived, parts);
    var e, coeffs, ids := LayerElement(c, layer), LayerPoly(k, layer), RequesterIds(k, arrived, requester);
    PartsMultiply(g, e, coeffs, ids, IdLists(k, requester, listed, arrived),
                  parts + [RequesterPart(g, c, k, layer, requester, arrived).value]);
  }

  function RequesterPart<G, C>(g: Group<G>, c: Ciphertext<G, C>, k: Keys, layer: Layer, requester: User,
                               arrived: seq<User>)
    : Result<G>
    requires g.order >= 2
  {
    PartResult(g, LayerElement(c, layer), LayerPoly(k, layer), k.id(requester), RequesterIds(k, arrived, requester))
  }

  lemma RequesterAccepted<G, C>(g: Group<G>, c: Ciphertext<G, C>, k: Keys, layer: Layer, requester: User,
                                arrived: seq<User>)
    requires g.order >= 2 && ValidIds(RequesterIds(k, arrived, requester))
    ensures RequesterPart(g, c, k, layer, requester, arrived).Ok?
  {
    assert RequesterIds(k, arrived, requester)[|arrived|] == k.id(requester);
  }

  /** The list of IDs each member of a layer used, in the order of the parts. */
  function IdLists(k: Keys, requester: User, listed: seq<User>, arrived: seq<User>): (r: seq<seq<int>>)
    ensures |r| == |arrived| + 1
    ensures forall i :: 0 <= i < |arrived| ==> r[i] == HelperIds(k.id(requester), listed, k.id)
    ensures r[|arrived|] == RequesterIds(k, arrived, requester)
  {
    seq(|arrived|, _ => HelperIds(k.id(requester), listed, k.id)) + [RequesterIds(k, arrived, requester)]
  }

  lemma LayerParts<G, C>(g: Group<G>, c: Ciphertext<G, C>, k: Keys, layer: Layer, requester: User,
                         listed: seq<User>, arrived: seq<User>, parts: seq<G>)
    requires PartsArrived(g, c, k, layer, requester, listed, arrived, parts)
    requires multiset(HelperIds(k.id(requester), listed, k.id)) == multiset(RequesterIds(k, arrived, requester))
    requires RequesterPart(g, c, k, layer, requester, arrived).Ok?
    ensures PartsOf(g, LayerElement(c, layer), LayerPoly(k, layer), RequesterIds(k, arrived, requester),
                    IdLists(k, requester, listed, arrived),
                    parts + [RequesterPart(g, c, k, layer, requester, arrived).value])
  {
    var ids, lists := RequesterIds(k, arrived, requester), IdLists(k, requester, listed, arrived);
    var all := parts + [RequesterPart(g, c, k, layer, requester, arrived).value];
    forall i | 0 <= i < |ids|
      ensures IsPartOf(g, LayerElement(c, layer), LayerPoly(k, layer), ids[i], ids, lists[i], all[i])
    {
      LayerPartAt(g, c, k, layer, requester, listed, arrived, parts, i);
    }
  }

  lemma LayerPartAt<G, C>(g: Group<G>, c: Ciphertext<G, C>, k: Keys, layer: Layer, requester: User,
                          listed: seq<User>, arrived: seq<User>, parts: seq<G>, i: nat)
    requires PartsArrived(g, c, k, layer, requester, listed, arrived, parts) && i <= |arrived|
    requires multiset(HelperIds(k.id(requester), listed, k.id)) == multiset(RequesterIds(k, arrived, requester))
    requires RequesterPart(g, c, k, layer, requester, arrived).Ok?
    ensures var ids, lists := RequesterIds(k, arrived, requester), IdLists(k, requester, listed, arrived);
            var all := parts + [RequesterPart(g, c, k, layer, requester, arrived).value];
            IsPartOf(g, LayerElement(c, layer), LayerPoly(k, layer), ids[i], ids, lists[i], all[i])
  {
    var ids, e, coeffs := RequesterIds(k, arrived, requester), LayerElement(c, layer), LayerPoly(k, layer);
    if i < |arrived| {
      assert HelperPart(g, c, k, layer, requester, listed, arrived[i]) == Ok(parts[i]);
      AcceptedPart(g, e, coeffs, ids[i], HelperIds(k.id(requester), listed, k.id), parts[i]);
    } else {
      AcceptedPart(g, e, coeffs, ids[i], ids, RequesterPart(g, c, k, layer, requester, arrived).value);
    }
  }

  lemma AcceptedPart<G>(g: Group<G>, c: G, coeffs: seq<nat>, id: int, ids: seq<int>, p: G)
    requires g.order >= 2 && PartResult(g, c, coeffs, id, ids) == Ok(p)
    ensures id in ids && p == Part(g, c, ShardAt(g.order, coeffs)(id), ids)
  {
  }

  /** A helper's part is refused if and only if the requester is a helper of the same layer. */
  lemma HelperAccepted<G(!new), C>(g: Group<G>, c: Ciphertext<G, C>, k: Keys, layer: Layer, requester: User,
                                   listed: seq<User>, members: set<User>, user: User)
    requires g.order >= 2 && GoodIds(k.id, members) && Distinct(listed) && user in listed
    requires Elements(listed) + {requester} <= members
    ensures HelperPart(g, c, k, layer, requester, listed, user).Ok? <==> requester !in listed
  {
    var all, ids := [requester] + listed, HelperIds(k.id(requester), listed, k.id);
    assert ids == Map(k.id, all);
    var i :| 0 <= i < |listed| && listed[i] == user;
    assert ids[i + 1] == k.id(user);
    DistinctFront(requester, listed);
    assert Elements(all) == {requester} + Elements(listed);
    MapDistinctExactly(k.id, all, members);
  }

  lemma DistinctFront(u: User, users: seq<User>)
    requires Distinct(users)
    ensures Distinct([u] + users) <==> u !in users
  {
    var all := [u] + users;
    if u in users {
      var i :| 0 <= i < |users| && users[i] == u;
      assert all[0] == all[i + 1];
    }
  }

  lemma DistinctBack(users: seq<User>, u: User)
    ensures Distinct(users + [u]) <==> Distinct(users) && u !in users
  {
    var all := users + [u];
    if Distinct(all) {
      forall i, j | 0 <= i < j < |users| ensures users[i] != users[j] {
        assert all[i] != all[j];
      }
      forall i | 0 <= i < |users| ensures users[i] != u {
        assert all[i] != all[|users|];
      }
    }
  }

  /** Good IDs are distinct exactly when the users are. */
  lemma MapDistinctExactly(id: User -> int, users: seq<User>, members: set<User>)
    requires GoodIds(id, members) && Elements(users) <= members
    ensures Distinct(Map(id, users)) <==> Distinct(users)
    ensures 0 !in Map(id, users)
  {
    var ids := Map(id, users);
    forall i | 0 <= i < |users| ensures IsShardId(ids[i]) {
      assert users[i] in Elements(users);
    }
    if Distinct(users) {
      MapDistinct(id, users, members);
    } else {
      var i, j :| 0 <= i < j < |users| && users[i] == users[j];
      assert ids[i] == ids[j];
    }
  }

  /**
   * The requester's own part is refused if and only if somebody of the layer sent twice, or the requester did
   * send.
   */
  lemma RequesterAcceptedExactly<G, C>(g: Group<G>, c: Ciphertext<G, C>, k: Keys, layer: Layer, requester: User,
                                       arrived: seq<User>, members: set<User>)
    requires g.order >= 2 && GoodIds(k.id, members) && Elements(arrived) + {requester} <= members
    ensures RequesterPart(g, c, k, layer, requester, arrived).Ok? <==> Distinct(arrived) && requester !in arrived
  {
    var all, ids := arrived + [requester], RequesterIds(k, arrived, requester);
    assert ids == Map(k.id, all) && ids[|arrived|] == k.id(requester);
    ElementsPush(arrived, requester);
    DistinctBack(arrived, requester);
    MapDistinctExactly(k.id, all, members);
  }

  // ----------------------------------------------------------- from record to plaintext

  /** The members' shard IDs are the stored ones. */
  ghost predicate IdsStored(k: Keys, st: Storage, userset: Uuid)
    requires userset in st.usersets
  {
    forall u :: u in st.usersets[userset].Members() ==>
      (u, userset) in st.shardIds && k.id(u) == st.shardIds[(u, userset)]
  }

  /** A userset as it is stored, with the keys its creation shared, and one of its owners. */
  ghost predicate Keyed(q: nat, k: Keys, st: Storage, userset: Uuid, requester: User) {
    && q > MAX_MEMBERS && Consistent(st) && userset in st.usersets && IdsStored(k, st, userset)
    && var info := st.usersets[userset];
       && |k.regPoly| == info.regsThreshold + 1 && |k.ownerPoly| == info.ownersThreshold + 1
       && k.regPoly[0] < q && k.ownerPoly[0] < q && requester in info.owners
  }

  /** The helpers of one operation: as many other owners and as many non-owners as the thresholds say. */
  ghost predicate Staffed(q: nat, k: Keys, st: Storage, userset: Uuid, requester: User, owners: set<User>,
                          regs: set<User>) {
    && Keyed(q, k, st, userset, requester)
    && var info := st.usersets[userset];
       && requester !in owners && owners <= info.owners && |owners| == info.ownersThreshold
       && regs <= info.regs - info.owners && |regs| == info.regsThreshold
  }

  lemma StoredIdsGood(k: Keys, st: Storage, userset: Uuid)
    requires Consistent(st) && userset in st.usersets && IdsStored(k, st, userset)
    ensures GoodIds(k.id, st.usersets[userset].Members())
  {
    assert MembersHaveIds(st.shardIds, userset, st.usersets[userset].Members());
  }

  /** A userset just created with these polynomials is ready for any helpers that meet its thresholds. */
  lemma CreatedStaffed(q: nat, k: Keys, before: Storage, st: Storage, userset: Uuid, info: UserSetInfo,
                       requester: User, owners: set<User>, regs: set<User>)
    requires q > MAX_MEMBERS && Consistent(before) && UsersetAdded(before, st, userset, info)
    requires |k.regPoly| == info.regsThreshold + 1 && |k.ownerPoly| == info.ownersThreshold + 1
    requires k.regPoly[0] < q && k.ownerPoly[0] < q && k.id == IdIn(st.shardIds, userset)
    requires requester in info.owners && requester !in owners
    requires owners <= info.owners && |owners| == info.ownersThreshold
    requires regs <= info.regs - info.owners && |regs| == info.regsThreshold
    ensures Staffed(q, k, st, userset, requester, owners, regs)
  {
    AddedConsistent(before, st, userset, info);
    assert MembersHaveIds(st.shardIds, userset, info.Members());
  }

  /** New users and new usersets leave it ready. */
  lemma StaysStaffed(q: nat, k: Keys, st: Storage, c: Change, later: Storage, userset: Uuid,
                     requester: User, owners: set<User>, regs: set<User>)
    requires Staffed(q, k, st, userset, requester, owners, regs) && Changed(st, c, later)
    ensures Staffed(q, k, later, userset, requester, owners, regs)
  {
    StaysStored(k, st, c, later, userset);
    if c.NewUserset? {
      AddedConsistent(st, later, c.userset, c.info);
    }
  }

  lemma StaysStored(k: Keys, st: Storage, c: Change, later: Storage, userset: Uuid)
    requires userset in st.usersets && IdsStored(k, st, userset) && Changed(st, c, later)
    ensures userset in later.usersets && later.usersets[userset] == st.usersets[userset]
    ensures IdsStored(k, later, userset)
  {
  }

  /** The lists of IDs that the server sends to helpers are made of these IDs. */
  lemma ListedIds(k: Keys, st: Storage, userset: Uuid, requester: User, listed: seq<User>)
    requires userset in st.usersets && IdsStored(k, st, userset)
    requires Elements(listed) + {requester} <= st.usersets[userset].Members()
    ensures var id := IdIn(st.shardIds, userset);
            HelperIds(id(requester), listed, id) == HelperIds(k.id(requester), listed, k.id)
  {
    var id := IdIn(st.shardIds, userset);
    forall i | 0 <= i < |listed| ensures id(listed[i]) == k.id(listed[i]) {
      assert listed[i] in Elements(listed);
    }
    assert Map(id, listed) == Map(k.id, listed);
  }

  /** Every helper of a layer computed the part from the list of IDs it was sent. */
  ghost predicate LayerParticipates<G, C>(g: Group<G>, c: Ciphertext<G, C>, k: Keys, layer: Layer, requester: User,
                                          listed: seq<User>, helpers: set<User>, part: User -> G)
  {
    && g.order >= 2 && Distinct(listed) && Elements(listed) == helpers
    && forall u :: u in helpers ==> HelperPart(g, c, k, layer, requester, listed, u) == Ok(part(u))
  }

  /** The parts that arrived and the requester's own multiply to the layer's secret. */
  ghost predicate LayerRestored<G>(g: Group<G>, e: G, key: nat, own: Result<G>, parts: seq<G>) {
    own.Ok? && Accumulate(g.op, g.id, parts + [own.value]) == GroupPow(g, e, key)
  }

  /** A layer of a finished record, completed with the requester's own part. */
  lemma FinishedLayer<G(!new), C>(g: Group<G>, c: Ciphertext<G, C>, k: Keys, layer: Layer, requester: User,
                                  listed: seq<User>, arrived: seq<User>, helpers: set<User>, members: set<User>,
                                  part: User -> G)
    requires PrimeOrdered(g) && g.order > MAX_MEMBERS && GoodIds(k.id, members) && helpers + {requester} <= members
    requires requester !in helpers && Distinct(arrived) && Elements(arrived) == helpers
    requires |LayerPoly(k, layer)| == |helpers| + 1 && LayerPoly(k, layer)[0] < g.order
    requires LayerParticipates(g, c, k, layer, requester, listed, helpers, part)
    ensures LayerRestored(g, LayerElement(c, layer), LayerPoly(k, layer)[0],
                          RequesterPart(g, c, k, layer, requester, arrived), Map(part, arrived))
  {
    DistinctBySize(listed);
    forall i | 0 <= i < |arrived|
      ensures HelperPart(g, c, k, layer, requester, listed, arrived[i]) == Ok(Map(part, arrived)[i])
    {
      assert arrived[i] in Elements(arrived);
    }
    LayerDecrypts(g, c, k, layer, requester, listed, arrived, members, Map(part, arrived));
  }

  /** What the requester gets out of a finished record: its own two parts added, all parts joined. */
  function RequesterJoins<G, K, M, C>(s: Schema<G, K, M, C>, c: Ciphertext<G, C>, k: Keys, requester: User,
                                      f: FinishedRecord<G>)
    : Result<M>
    requires s.group.order >= 2
  {
    var q, id := s.group.order, k.id(requester);
    Client.Finish(s, c, ShardAt(q, k.regPoly)(id), ShardAt(q, k.ownerPoly)(id), f)
  }

  lemma RestoredJoin<G(!new), K(!new), M(!new), C(!new)>(
    s: Schema<G, K, M, C>, c: Ciphertext<G, C>, k: Keys, requester: User, f: FinishedRecord<G>)
    requires s.group.order >= 2 && |k.regPoly| > 0 && |k.ownerPoly| > 0
    requires LayerRestored(s.group, c.c1, k.regPoly[0], PartResult(s.group, c.c1, k.regPoly, k.id(requester), f.regIds),
                           f.regParts)
    requires LayerRestored(s.group, c.c2, k.ownerPoly[0],
                           PartResult(s.group, c.c2, k.ownerPoly, k.id(requester), f.ownerIds), f.ownerParts)
    ensures RequesterJoins(s, c, k, requester, f) == Ok(Decrypt(s, c, k.regPoly[0], k.ownerPoly[0]))
  {
  }

  lemma ChosenAll(users: seq<User>, s: set<User>, others: set<User>)
    requires Distinct(users) && Elements(users) == s + others
    ensures Distinct(Chosen(users, s)) && Elements(Chosen(users, s)) == s
  {
    ChosenElements(users, s);
    assert s * (s + others) == s;
  }

  function LayerHelpers(layer: Layer, owners: set<User>, regs: set<User>): set<User> {
    if layer.RegLayer? then regs else owners
  }

  lemma StaffedLayer<G(!new), C>(
    g: Group<G>, c: Ciphertext<G, C>, k: Keys, st: Storage, userset: Uuid, requester: User, owners: set<User>,
    regs: set<User>, layer: Layer, listed: seq<User>, arrived: seq<User>, part: User -> G)
    requires PrimeOrdered(g) && Staffed(g.order, k, st, userset, requester, owners, regs)
    requires LayerParticipates(g, c, k, layer, requester, listed, LayerHelpers(layer, owners, regs), part)
    requires Distinct(arrived) && Elements(arrived) == LayerHelpers(layer, owners, regs)
    ensures LayerRestored(g, LayerElement(c, layer), LayerPoly(k, layer)[0],
                          RequesterPart(g, c, k, layer, requester, arrived), Map(part, arrived))
  {
    StoredIdsGood(k, st, userset);
    FinishedLayer(g, c, k, layer, requester, listed, arrived, LayerHelpers(layer, owners, regs),
                  st.usersets[userset].Members(), part);
  }

  /** The finished record of these helpers, by their order of arrival in each layer, with the requester's IDs. */
  ghost predicate FinishedBy<G>(f: FinishedRecord<G>, k: Keys, requester: User, owners: set<User>, regs: set<User>,
                                sending: seq<User>, part: User -> G) {
    && f.ownerParts == Map(part, Chosen(sending, owners)) && f.regParts == Map(part, Chosen(sending, regs))
    && f.ownerIds == RequesterIds(k, Chosen(sending, owners), requester)
    && f.regIds == RequesterIds(k, Chosen(sending, regs), requester)
  }

  lemma GatheredFinishes<G>(k: Keys, requester: User, owners: set<User>, regs: set<User>, sending: seq<User>,
                            part: User -> G, op: Uuid, r: CollectedRecord<G>)
    requires r == Gathered(r, ByHelpers(sending, part), owners, regs, k.id)
    ensures FinishedBy(FinishedOf(op, r, k.id(requester)), k, requester, owners, regs, sending, part)
  {
    PartsInByHelpers(sending, part, owners);
    PartsInByHelpers(sending, part, regs);
  }

  /** Handling the finished record of an operation gives what plain decryption under the two shared keys gives. */
  lemma FinishedDecrypts<G(!new), K(!new), M(!new), C(!new)>(
    s: Schema<G, K, M, C>, c: Ciphertext<G, C>, k: Keys, st: Storage, userset: Uuid, requester: User,
    owners: set<User>, regs: set<User>, listedOwners: seq<User>, listedRegs: seq<User>, sending: seq<User>,
    part: User -> G, f: FinishedRecord<G>)
    requires ValidSchema(s) && Staffed(s.group.order, k, st, userset, requester, owners, regs)
    requires LayerParticipates(s.group, c, k, OwnerLayer, requester, listedOwners, owners, part)
    requires LayerParticipates(s.group, c, k, RegLayer, requester, listedRegs, regs, part)
    requires Distinct(sending) && Elements(sending) == owners + regs
    requires FinishedBy(f, k, requester, owners, regs, sending, part)
    ensures RequesterJoins(s, c, k, requester, f) == Ok(Decrypt(s, c, k.regPoly[0], k.ownerPoly[0]))
  {
    ChosenAll(sending, owners, regs);
    ChosenAll(sending, regs, owners);
    StaffedLayer(s.group, c, k, st, userset, requester, owners, regs, OwnerLayer, listedOwners,
                 Chosen(sending, owners), part);
    StaffedLayer(s.group, c, k, st, userset, requester, owners, regs, RegLayer, listedRegs,
                 Chosen(sending, regs), part);
    RestoredJoin(s, c, k, requester, f);
  }

  /** No helper is refused: with the stored IDs, each of them has a part to send. */
  lemma HelpersAccepted<G(!new), C>(g: Group<G>, c: Ciphertext<G, C>, k: Keys, st: Storage, userset: Uuid,
                                    requester: User,
                                    owners: set<User>, regs: set<User>, layer: Layer, listed: seq<User>, user: User)
    requires Staffed(g.order, k, st, userset, requester, owners, regs)
    requires Distinct(listed) && user in listed && Elements(listed) == if layer.OwnerLayer? then owners else regs
    ensures HelperPart(g, c, k, layer, requester, listed, user).Ok?
  {
    StoredIdsGood(k, st, userset);
    assert requester !in listed by {
      assert requester in listed ==> requester in Elements(listed);
    }
    HelperAccepted(g, c, k, layer, requester, listed, st.usersets[userset].Members(), user);
  }

  // ------------------------------------------------- when an operation succeeds

  /** No member of the layer is refused a part. */
  ghost predicate LayerAccepted<G, C>(g: Group<G>, c: Ciphertext<G, C>, k: Keys, layer: Layer, requester: User,
                                      listed: seq<User>)
    requires g.order >= 2
  {
    forall u :: u in listed ==> HelperPart(g, c, k, layer, requester, listed, u).Ok?
  }

  lemma LayerAcceptedExactly<G(!new), C>(g: Group<G>, c: Ciphertext<G, C>, k: Keys, layer: Layer, requester: User,
                                         listed: seq<User>, members: set<User>)
    requires g.order >= 2 && GoodIds(k.id, members) && Distinct(listed) && Elements(listed) + {requester} <= members
    ensures LayerAccepted(g, c, k, layer, requester, listed) <==> requester !in Elements(listed)
  {
    forall u | u in listed
      ensures HelperPart(g, c, k, layer, requester, listed, u).Ok? <==> requester !in listed
    {
      HelperAccepted(g, c, k, layer, requester, listed, members, u);
    }
  }

  /** Exactly a userset's members can be told each other's IDs. */
  lemma MembersToldExactly(st: Storage, userset: Uuid, users: set<User>)
    requires Consistent(st) && userset in st.usersets
    ensures AllHaveIds(st.shardIds, userset, users) <==> users <= st.usersets[userset].Members()
  {
    assert MembersHaveIds(st.shardIds, userset, st.usersets[userset].Members());
    if AllHaveIds(st.shardIds, userset, users) {
      forall u | u in users ensures u in st.usersets[userset].Members() {
        assert (u, userset) in st.shardIds;
      }
    }
  }

  /**
   * Let volunteers fill the record p of an owner's request, each with its stored role, and let every helper then
   * send once, and nobody else. All helpers are told the IDs, none is refused its part and the operation finishes
   * if and only if the requester is not among the owner layer's helpers and the regular layer's helpers are
   * members that are not owners. That is when the helpers staff the operation.
   */
  lemma SucceedsExactly<G(!new), C(!new)>(
    g: Group<G>, c: Ciphertext<G, C>, k: Keys, st: Storage, userset: Uuid, requester: User,
    sys: System<Ciphertext<G, C>, G>, es: seq<Event<Ciphertext<G, C>, G>>, op: Uuid,
    enrolling: seq<Event<Ciphertext<G, C>, G>>, p: PrepareRecord<Ciphertext<G, C>>,
    listedOwners: seq<User>, listedRegs: seq<User>, sends: seq<Send<G>>)
    requires Keyed(g.order, k, st, userset, requester)
    requires FilledRun(sys, es, op, enrolling, p, sends, st.usersets[userset].owners, k.id)
    requires Requested(p, st.usersets[userset]) && Listed(p, listedOwners, listedRegs)
    requires Distinct(Senders(sends)) && Elements(Senders(sends)) == p.owners + p.regs
    ensures Staffed(g.order, k, st, userset, requester, p.owners, p.regs) <==>
              && AllHaveIds(st.shardIds, userset, p.owners + p.regs + {requester})
              && LayerAccepted(g, c, k, OwnerLayer, requester, listedOwners)
              && LayerAccepted(g, c, k, RegLayer, requester, listedRegs)
              && |ViewOf(Run(sys, es), op).completed| == 1
  {
    OperationCompletesExactly(sys, es, op, enrolling, p, sends, st.usersets[userset].owners, k.id);
    ToldAndAccepted(g, c, k, st, userset, requester, enrolling, p, listedOwners, listedRegs);
  }

  /** The record asks for as many helpers as the thresholds say. */
  predicate Requested<X>(p: PrepareRecord<X>, info: UserSetInfo) {
    p.requiredOwners == info.ownersThreshold && p.requiredRegs == info.regsThreshold
  }

  /** The helpers of both layers in the orders in which the server lists them. */
  ghost predicate Listed<X>(p: PrepareRecord<X>, listedOwners: seq<User>, listedRegs: seq<User>) {
    && Distinct(listedOwners) && Elements(listedOwners) == p.owners
    && Distinct(listedRegs) && Elements(listedRegs) == p.regs
  }

  lemma ToldAndAccepted<G(!new), C(!new)>(
    g: Group<G>, c: Ciphertext<G, C>, k: Keys, st: Storage, userset: Uuid, requester: User,
    enrolling: seq<Event<Ciphertext<G, C>, G>>, p: PrepareRecord<Ciphertext<G, C>>,
    listedOwners: seq<User>, listedRegs: seq<User>)
    requires Keyed(g.order, k, st, userset, requester)
    requires forall i :: 0 <= i < |enrolling| ==> ByRoles(enrolling[i], st.usersets[userset].owners)
    requires ViewRun(View(None, None, [], []), enrolling) == View(None, Some(Opened(p)), [p], [])
    requires Requested(p, st.usersets[userset]) && Listed(p, listedOwners, listedRegs)
    ensures Staffed(g.order, k, st, userset, requester, p.owners, p.regs) <==>
              && AllHaveIds(st.shardIds, userset, p.owners + p.regs + {requester})
              && LayerAccepted(g, c, k, OwnerLayer, requester, listedOwners)
              && LayerAccepted(g, c, k, RegLayer, requester, listedRegs)
              && p.regs !! st.usersets[userset].owners
  {
    var info := st.usersets[userset];
    var members := info.Members();
    FilledByRoles(enrolling, p, info.owners);
    MembersToldExactly(st, userset, p.owners + p.regs + {requester});
    StoredIdsGood(k, st, userset);
    if p.owners + p.regs + {requester} <= members {
      LayerAcceptedExactly(g, c, k, OwnerLayer, requester, listedOwners, members);
      LayerAcceptedExactly(g, c, k, RegLayer, requester, listedRegs, members);
    }
    RolesDecide(info, requester, p.owners, p.regs);
  }

  // ------------------------------------------------------------ arbitrary senders

  /**
   * The requester's list of a layer arranges the IDs that the layer's helpers were told if and only if the parts
   * that arrived are from these helpers, one from each.
   */
  lemma ArrangedExactly(k: Keys, requester: User, members: set<User>, listed: seq<User>, arrived: seq<User>)
    requires GoodIds(k.id, members) && Distinct(listed) && Elements(listed) + Elements(arrived) <= members
    ensures multiset(RequesterIds(k, arrived, requester)) == multiset(HelperIds(k.id(requester), listed, k.id)) <==>
              Distinct(arrived) && Elements(arrived) == Elements(listed)
  {
    var told, came := Map(k.id, listed), Map(k.id, arrived);
    ArrangedCancels(came, told, k.id(requester));
    MapDistinctExactly(k.id, listed, members);
    MapDistinctExactly(k.id, arrived, members);
    if multiset(came) == multiset(told) {
      PermutationDistinct(told, came);
      SameIdsSameUsers(k.id, listed, arrived, members);
      SameIdsSameUsers(k.id, arrived, listed, members);
    }
    if Distinct(arrived) && Elements(arrived) == Elements(listed) {
      SameElements(arrived, listed);
      MapMultiset(k.id, arrived, listed);
    }
  }

  lemma ArrangedCancels(a: seq<int>, b: seq<int>, x: int)
    ensures multiset(a + [x]) == multiset([x] + b) <==> multiset(a) == multiset(b)
  {
    assert multiset(a + [x]) == multiset(a) + multiset{x};
    assert multiset([x] + b) == multiset(b) + multiset{x};
    if multiset(a + [x]) == multiset([x] + b) {
      assert multiset(a + [x]) - multiset{x} == multiset(a);
      assert multiset([x] + b) - multiset{x} == multiset(b);
    }
  }

  lemma SameIdsSameUsers(id: User -> int, us: seq<User>, vs: seq<User>, members: set<User>)
    requires GoodIds(id, members) && Elements(us) + Elements(vs) <= members
    requires Elements(Map(id, us)) == Elements(Map(id, vs))
    ensures Elements(us) <= Elements(vs)
  {
    forall u | u in us ensures u in Elements(vs) {
      var i :| 0 <= i < |us| && us[i] == u;
      assert Map(id, us)[i] in Elements(Map(id, us));
      assert id(u) in Map(id, vs);
      var j :| 0 <= j < |vs| && Map(id, vs)[j] == id(u);
      assert u in Elements(us) && vs[j] in Elements(vs);
    }
  }

  /** The finished record's lists arrange the IDs that the helpers of both layers were told. */
  ghost predicate ListsAgree<G>(k: Keys, requester: User, listedOwners: seq<User>, listedRegs: seq<User>,
                                f: FinishedRecord<G>) {
    && multiset(f.ownerIds) == multiset(HelperIds(k.id(requester), listedOwners, k.id))
    && multiset(f.regIds) == multiset(HelperIds(k.id(requester), listedRegs, k.id))
  }

  /** Of senders by role: the helpers of both layers, each once, and nobody else. */
  lemma SendersAreHelpers(senders: seq<User>, roles: set<User>, owners: set<User>, regs: set<User>)
    requires owners <= roles
    ensures var a, b := Chosen(senders, roles), Chosen(senders, Elements(senders) - roles);
            (Distinct(a) && Elements(a) == owners && Distinct(b) && Elements(b) == regs) <==>
            (Distinct(senders) && Elements(senders) == owners + regs && regs !! roles)
  {
    var others := Elements(senders) - roles;
    ChosenMembers(senders, roles);
    ChosenMembers(senders, others);
    ChosenCounts(senders, roles, others);
    if Distinct(senders) {
      ChosenElements(senders, roles);
      ChosenElements(senders, others);
    }
    DistinctBySize(senders);
    DistinctBySize(Chosen(senders, roles));
    DistinctBySize(Chosen(senders, others));
    DisjointSizes(Elements(senders), roles);
  }

  lemma DisjointSizes(all: set<User>, roles: set<User>)
    ensures |all| == |roles * all| + |all - roles| && all == roles * all + (all - roles)
    ensures (all - roles) * all == all - roles
  {
    assert all == roles * all + (all - roles);
  }

  lemma {:induction false} ChosenMembers(users: seq<User>, s: set<User>)
    ensures Elements(Chosen(users, s)) == s * Elements(users)
  {
    if |users| == 0 {
    } else {
      var t, u := users[..|users| - 1], users[|users| - 1];
      ChosenMembers(t, s);
      assert users == t + [u];
      ElementsPush(t, u);
      ElementsPush(Chosen(t, s), u);
      assert Chosen(t, s) + [] == Chosen(t, s);
    }
  }

  lemma {:induction false} ChosenCounts(users: seq<User>, a: set<User>, b: set<User>)
    requires a !! b && Elements(users) <= a + b
    ensures |Chosen(users, a)| + |Chosen(users, b)| == |users|
  {
    if |users| == 0 {
    } else {
      var t, u := users[..|users| - 1], users[|users| - 1];
      assert users == t + [u] && u in Elements(users);
      ElementsPush(t, u);
      ChosenCounts(t, a, b);
    }
  }

  /**
   * Whoever sends parts, members all of them: all helpers are told the IDs, none is refused its part, a record is
   * finished and its lists are those of the helpers, if and only if the helpers staff the operation and they send,
   * once each, and nobody else does.
   */
  lemma FinishesRightExactly<G(!new), C(!new)>(
    g: Group<G>, c: Ciphertext<G, C>, k: Keys, st: Storage, userset: Uuid, requester: User,
    sys: System<Ciphertext<G, C>, G>, es: seq<Event<Ciphertext<G, C>, G>>, op: Uuid,
    enrolling: seq<Event<Ciphertext<G, C>, G>>, p: PrepareRecord<Ciphertext<G, C>>,
    listedOwners: seq<User>, listedRegs: seq<User>, sends: seq<Send<G>>)
    requires Keyed(g.order, k, st, userset, requester)
    requires FilledRun(sys, es, op, enrolling, p, sends, st.usersets[userset].owners, k.id)
    requires Requested(p, st.usersets[userset]) && Listed(p, listedOwners, listedRegs)
    requires Elements(Senders(sends)) <= st.usersets[userset].Members()
    ensures (&& Staffed(g.order, k, st, userset, requester, p.owners, p.regs)
             && Distinct(Senders(sends)) && Elements(Senders(sends)) == p.owners + p.regs) <==>
              var done := ViewOf(Run(sys, es), op).completed;
              && AllHaveIds(st.shardIds, userset, p.owners + p.regs + {requester})
              && LayerAccepted(g, c, k, OwnerLayer, requester, listedOwners)
              && LayerAccepted(g, c, k, RegLayer, requester, listedRegs)
              && |done| == 1
              && ListsAgree(k, requester, listedOwners, listedRegs, FinishedOf(op, done[0], k.id(requester)))
  {
    var info := st.usersets[userset];
    ToldAndAccepted(g, c, k, st, userset, requester, enrolling, p, listedOwners, listedRegs);
    MembersToldExactly(st, userset, p.owners + p.regs + {requester});
    FilledByRoles(enrolling, p, info.owners);
    if p.owners + p.regs <= info.Members() {
      StoredIdsGood(k, st, userset);
      ListsAgreeExactly(k, requester, info, sys, es, op, enrolling, p, listedOwners, listedRegs, sends);
    }
  }

  lemma ListsAgreeExactly<X, G>(
    k: Keys, requester: User, info: UserSetInfo, sys: System<X, G>, es: seq<Event<X, G>>, op: Uuid,
    enrolling: seq<Event<X, G>>, p: PrepareRecord<X>, listedOwners: seq<User>, listedRegs: seq<User>,
    sends: seq<Send<G>>)
    requires FilledRun(sys, es, op, enrolling, p, sends, info.owners, k.id)
    requires GoodIds(k.id, info.Members()) && Listed(p, listedOwners, listedRegs)
    requires p.owners + p.regs + Elements(Senders(sends)) <= info.Members()
    ensures (var done := ViewOf(Run(sys, es), op).completed;
             && |done| == 1
             && ListsAgree(k, requester, listedOwners, listedRegs, FinishedOf(op, done[0], k.id(requester)))) <==>
            (Distinct(Senders(sends)) && Elements(Senders(sends)) == p.owners + p.regs && p.regs !! info.owners)
  {
    var senders := Senders(sends);
    var others := Elements(senders) - info.owners;
    var a, b := Chosen(senders, info.owners), Chosen(senders, others);
    OperationDecided(sys, es, op, enrolling, p, sends, info.owners, k.id);
    FilledByRoles(enrolling, p, info.owners);
    SendersAreHelpers(senders, info.owners, p.owners, p.regs);
    ChosenMembers(senders, info.owners);
    ChosenMembers(senders, others);
    ArrangedExactly(k, requester, info.Members(), listedOwners, a);
    ArrangedExactly(k, requester, info.Members(), listedRegs, b);
    DistinctBySize(a);
    DistinctBySize(b);
  }

  lemma RolesDecide(info: UserSetInfo, requester: User, owners: set<User>, regs: set<User>)
    requires owners <= info.owners && requester in info.owners
    ensures requester !in owners && regs <= info.regs - info.owners <==>
              && owners + regs + {requester} <= info.Members() && requester !in owners && requester !in regs
              && regs !! info.owners
  {
  }

  /**
   * Whoever sent parts, and however often: the requester gets a plaintext from the finished record if and only if
   * nobody sent twice to a layer and the requester sent to neither.
   */
  lemma JoinsExactly<G(!new), K(!new), M(!new), C(!new)>(
    s: Schema<G, K, M, C>, c: Ciphertext<G, C>, k: Keys, requester: User, members: set<User>,
    arrivedOwners: seq<User>, arrivedRegs: seq<User>, f: FinishedRecord<G>)
    requires s.group.order >= 2 && GoodIds(k.id, members)
    requires Elements(arrivedOwners) + Elements(arrivedRegs) + {requester} <= members
    requires f.ownerIds == RequesterIds(k, arrivedOwners, requester)
    requires f.regIds == RequesterIds(k, arrivedRegs, requester)
    ensures RequesterJoins(s, c, k, requester, f).Ok? <==>
              && Distinct(arrivedOwners) && Distinct(arrivedRegs)
              && requester !in arrivedOwners && requester !in arrivedRegs
  {
    RequesterAcceptedExactly(s.group, c, k, OwnerLayer, requester, arrivedOwners, members);
    RequesterAcceptedExactly(s.group, c, k, RegLayer, requester, arrivedRegs, members);
  }

  /** A helper's role in storage is its role in the operation. */
  lemma RolesAgree(owners: set<User>, regs: set<User>, info: UserSetInfo, users: seq<User>)
    requires owners <= info.owners && regs <= info.regs - info.owners && Elements(users) == owners + regs
    ensures forall i :: 0 <= i < |users| ==> (users[i] in info.owners <==> users[i] in owners)
    ensures owners !! regs
  {
    forall i | 0 <= i < |users| ensures users[i] in info.owners <==> users[i] in owners {
      assert users[i] in Elements(users);
    }
  }

  /** The helpers staff the operation, and each has the part computed from the IDs its layer was told. */
  ghost predicate Partaking<G, C>(
    g: Group<G>, c: Ciphertext<G, C>, k: Keys, st: Storage, userset: Uuid, requester: User, owners: set<User>,
    regs: set<User>, listedOwners: seq<User>, listedRegs: seq<User>, part: User -> G)
  {
    && Staffed(g.order, k, st, userset, requester, owners, regs) && owners + regs != {}
    && LayerParticipates(g, c, k, OwnerLayer, requester, listedOwners, owners, part)
    && LayerParticipates(g, c, k, RegLayer, requester, listedRegs, regs, part)
  }

  /**
   * A run of the server in which these helpers enrol for the operation and then each send a part, in any orders.
   * Whatever happens to other operations meanwhile, and whoever volunteers without effect, is left open.
   */
  ghost predicate Helped<X, P>(
    sys: System<X, P>, es: seq<Event<X, P>>, op: Uuid, requester: User, userset: Uuid, c: X, info: UserSetInfo,
    helpers: set<User>, enrolling: seq<User>, sending: seq<User>, part: User -> P, id: User -> int)
  {
    && Distinct(enrolling) && Elements(enrolling) == helpers && Distinct(sending) && Elements(sending) == helpers
    && Disjoint(sys) && AllowedRun(sys, es) && ViewOf(sys, op) == View(None, None, [], [])
    && EventsOf(sys, es, op) == [Prepare(op, requester, userset, c, info.ownersThreshold, info.regsThreshold)]
                                + Enrolments(op, enrolling, info.owners)
                                + Parts(op, ByHelpers(sending, part), info.owners, id)
  }

  /**
   * The whole protocol: when the helpers have enrolled and sent their parts, the server has handed out one finished
   * record, and the requester's two added parts join with it to the encrypted plaintext.
   */
  lemma ThresholdDecryption<G(!new), K(!new), M(!new), C(!new)>(
    s: Schema<G, K, M, C>, m: M, r1: nat, r2: nat, nonce: nat, c: Ciphertext<G, C>, k: Keys, st: Storage,
    userset: Uuid, requester: User, owners: set<User>, regs: set<User>,
    sys: System<Ciphertext<G, C>, G>, es: seq<Event<Ciphertext<G, C>, G>>, op: Uuid, enrolling: seq<User>,
    listedOwners: seq<User>, listedRegs: seq<User>, sending: seq<User>, part: User -> G)
    requires ValidSchema(s)
    requires Partaking(s.group, c, k, st, userset, requester, owners, regs, listedOwners, listedRegs, part)
    requires Helped(sys, es, op, requester, userset, c, st.usersets[userset], owners + regs, enrolling, sending, part,
                    k.id)
    requires c == Encrypt(s, m, PublicKey(s.group, k.regPoly[0]), PublicKey(s.group, k.ownerPoly[0]), r1, r2, nonce)
    ensures var v := ViewOf(Run(sys, es), op);
            && |v.promoted| == 1 && v.promoted[0].owners == owners && v.promoted[0].regs == regs
            && |v.completed| == 1 && v.completed[0].requester == requester && v.completed[0].userset == userset
            && RequesterJoins(s, c, k, requester, FinishedOf(op, v.completed[0], k.id(requester))) == Ok(m)
  {
    OperationFinishes(sys, es, op, requester, userset, c, st.usersets[userset], enrolling, sending, owners, regs, part,
                      k.id);
    var r := ViewOf(Run(sys, es), op).completed[0];
    GatheredFinishes(k, requester, owners, regs, sending, part, op, r);
    FinishedDecrypts(s, c, k, st, userset, requester, owners, regs, listedOwners, listedRegs, sending, part,
                     FinishedOf(op, r, k.id(requester)));
    DecryptUndoesEncrypt(s, m, k.regPoly[0], k.ownerPoly[0], r1, r2, nonce);
  }

  /** The requester's client has noted the operation, and its profile has both shards of the requester. */
  ghost predicate Noted<G, K, M, C>(client: Client.Client<G, K, M, C>, k: Keys, requester: User, userset: Uuid,
                                    c: Ciphertext<G, C>, op: Uuid)
    reads client
  {
    && client.schema.group.order >= 2 && op in client.pending && client.pending[op] == (userset, c)
    && var q, id := client.schema.group.order, k.id(requester);
       var found := FirstOf(client.records, userset);
       found.Some? && found.value.regShard == ShardAt(q, k.regPoly)(id)
       && found.value.ownerShard == Some(ShardAt(q, k.ownerPoly)(id))
  }

  /** Then the client's outcome is what joining gives. */
  lemma ClientOutcome<G, K, M, C>(client: Client.Client<G, K, M, C>, k: Keys, requester: User, userset: Uuid,
                                  c: Ciphertext<G, C>, f: FinishedRecord<G>)
    requires Noted(client, k, requester, userset, c, f.op)
    ensures client.OwnsPending(f.op)
    ensures client.Outcome(f) == match RequesterJoins(client.schema, c, k, requester, f)
                                 case Ok(m) => Client.Decrypted(m)
                                 case Err(e) => Client.Refused(e)
  {
  }

  /** The whole protocol up to the requester's client, which ends up with the encrypted plaintext. */
  lemma ClientDecrypts<G(!new), K(!new), M(!new), C(!new)>(
    client: Client.Client<G, K, M, C>, m: M, r1: nat, r2: nat, nonce: nat, c: Ciphertext<G, C>, k: Keys, st: Storage,
    userset: Uuid, requester: User, owners: set<User>, regs: set<User>,
    sys: System<Ciphertext<G, C>, G>, es: seq<Event<Ciphertext<G, C>, G>>, op: Uuid, enrolling: seq<User>,
    listedOwners: seq<User>, listedRegs: seq<User>, sending: seq<User>, part: User -> G)
    requires ValidSchema(client.schema) && Noted(client, k, requester, userset, c, op)
    requires Partaking(client.schema.group, c, k, st, userset, requester, owners, regs, listedOwners, listedRegs, part)
    requires Helped(sys, es, op, requester, userset, c, st.usersets[userset], owners + regs, enrolling, sending, part,
                    k.id)
    requires c == Encrypt(client.schema, m, PublicKey(client.schema.group, k.regPoly[0]),
                          PublicKey(client.schema.group, k.ownerPoly[0]), r1, r2, nonce)
    ensures var done := ViewOf(Run(sys, es), op).completed;
            |done| == 1 && client.Outcome(FinishedOf(op, done[0], k.id(requester))) == Client.Decrypted(m)
  {
    ThresholdDecryption(client.schema, m, r1, r2, nonce, c, k, st, userset, requester, owners, regs, sys, es, op,
                        enrolling, listedOwners, listedRegs, sending, part);
    ClientOutcome(client, k, requester, userset, c,
                  FinishedOf(op, ViewOf(Run(sys, es), op).completed[0], k.id(requester)));
  }

  /** The run of the operation, with the roles taken from storage. */
  lemma OperationFinishes<X, P>(
    sys: System<X, P>, es: seq<Event<X, P>>, op: Uuid, requester: User, userset: Uuid, c: X, info: UserSetInfo,
    enrolling: seq<User>, sending: seq<User>, owners: set<User>, regs: set<User>, part: User -> P, id: User -> int)
    requires owners <= info.owners && regs <= info.regs - info.owners && owners + regs != {}
    requires |owners| == info.ownersThreshold && |regs| == info.regsThreshold
    requires Helped(sys, es, op, requester, userset, c, info, owners + regs, enrolling, sending, part, id)
    ensures var p := PrepareRecord(requester, userset, c, |owners|, |regs|, owners, regs);
            ViewOf(Run(sys, es), op)
            == View(None, None, [p], [Gathered(Opened(p), ByHelpers(sending, part), owners, regs, id)])
  {
    RolesAgree(owners, regs, info, enrolling);
    RolesAgree(owners, regs, info, sending);
    assert Enrolments<X, P>(op, enrolling, info.owners) == Enrolments(op, enrolling, owners);
    var sends := ByHelpers(sending, part);
    assert Parts<X, P>(op, sends, info.owners, id) == Parts(op, sends, owners, id);
    OperationCompletes(sys, es, op, requester, userset, c, enrolling, sending, owners, regs, part, id);
  }

  /** With both thresholds zero the record finished on the spot already lets the requester decrypt alone. */
  lemma SoleDecryption<G(!new), K(!new), M(!new), C(!new)>(
    s: Schema<G, K, M, C>, m: M, r1: nat, r2: nat, nonce: nat, k: Keys, st: Storage, userset: Uuid, requester: User,
    op: Uuid)
    requires ValidSchema(s) && Staffed(s.group.order, k, st, userset, requester, {}, {})
    ensures var c := Encrypt(s, m, PublicKey(s.group, k.regPoly[0]), PublicKey(s.group, k.ownerPoly[0]), r1, r2, nonce);
            var r := NothingCollected(requester, userset);
            RequesterJoins(s, c, k, requester, FinishedOf(op, r, k.id(requester))) == Ok(m)
  {
    var g := s.group;
    var c := Encrypt(s, m, PublicKey(g, k.regPoly[0]), PublicKey(g, k.ownerPoly[0]), r1, r2, nonce);
    FinishedDecrypts(s, c, k, st, userset, requester, {}, {}, [], [], [], _ => g.id,
                     FinishedOf(op, NothingCollected(requester, userset), k.id(requester)));
    DecryptUndoesEncrypt(s, m, k.regPoly[0], k.ownerPoly[0], r1, r2, nonce);
  }

  /** Every record ever finished has, in each layer, exactly one more shard ID than parts. */
  lemma FinishedOneMoreId<X, P>(es: seq<Event<X, P>>, i: nat, requesterId: int)
    requires AllowedRun(Initial<X, P>(), es) && i < |Run(Initial(), es).completed|
    ensures var (op, r) := Run(Initial(), es).completed[i];
            var f := FinishedOf(op, r, requesterId);
            |f.regIds| == |f.regParts| + 1 && |f.ownerIds| == |f.ownerParts| + 1
  {
    InvariantInitially<X, P>();
    RunKeeps(Initial(), es);
  }
}
