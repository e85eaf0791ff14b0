/** Pending updates of all users, and the conservation of what is registered for them. */
module UpdateManager {
  import opened Ranges
  import opened Shamir
  import opened ElGamal
  import opened Packets

  type Updates<G, C> = map<User, UpdateResponse<G, C>>

  /** One registered entry, of any of the five kinds. */
  datatype Item<G, C> =
    | AddedAsMember(member: MemberRecord<G>)
    | AddedAsOwner(owner: OwnerRecord<G>)
    | OnLookup(op: Uuid)
    | ToDecrypt(decrypt: ToDecryptRecord<G, C>)
    | Finished(finish: FinishedRecord<G>)

  function Only<G, C>(item: Item<G, C>): UpdateResponse<G, C> {
    match item
    case AddedAsMember(r) => NoUpdates().(addedAsMember := [r])
    case AddedAsOwner(r) => NoUpdates().(addedAsOwner := [r])
    case OnLookup(op) => NoUpdates().(onLookup := [op])
    case ToDecrypt(r) => NoUpdates().(toDecrypt := [r])
    case Finished(r) => NoUpdates().(finished := [r])
  }

  /** Joins two responses kind by kind, keeping the order within each kind. */
  function Join<G, C>(a: UpdateResponse<G, C>, b: UpdateResponse<G, C>): UpdateResponse<G, C> {
    UpdateResponse(a.addedAsMember + b.addedAsMember, a.addedAsOwner + b.addedAsOwner, a.onLookup + b.onLookup,
                   a.toDecrypt + b.toDecrypt, a.finished + b.finished)
  }

  function Pending<G, C>(u: Updates<G, C>, user: User): UpdateResponse<G, C> {
    if user in u then u[user] else NoUpdates()
  }

  function Register<G, C>(u: Updates<G, C>, user: User, item: Item<G, C>): Updates<G, C> {
    u[user := Join(Pending(u, user), Only(item))]
  }

  /** Registers one item for each of the users, in order. */
  function RegisterEach<G, C>(u: Updates<G, C>, users: seq<User>, item: User -> Item<G, C>): Updates<G, C> {
    if |users| == 0 then u
    else
      var last := users[|users| - 1];
      Register(RegisterEach(u, users[..|users| - 1], item), last, item(last))
  }

  class UpdateManager<G, C> {
    var updates: Updates<G, C>

    constructor ()
      ensures updates == map[]
    {
      updates := map[];
    }

    /** Hands out a user's pending updates and forgets them; nobody else's change. */
    method RetrieveUpdates(user: User) returns (r: UpdateResponse<G, C>)
      modifies this
      ensures r == Pending(old(updates), user)
      ensures updates == old(updates) - {user}
    {
      if user !in updates {
        assert updates - {user} == updates;
        return NoUpdates();
      }
      r := updates[user];
      updates := updates - {user};
    }

    // The entry that indexing the map creates for a user without one.
    method Touch(user: User)
      modifies this
      ensures user in updates && updates == old(updates)[user := Pending(old(updates), user)]
    {
      if user !in updates {
        updates := updates[user := NoUpdates()];
      } else {
        assert updates == updates[user := updates[user]];
      }
    }

    method RegisterRegMember(user: User, userset: Uuid, regKey: G, ownerKey: G, shard: Shard)
      modifies this
      ensures updates == Register(old(updates), user, AddedAsMember(MemberRecord(userset, regKey, ownerKey, shard)))
      ensures var was := Pending(old(updates), user);
              Pending(updates, user)
              == was.(addedAsMember := was.addedAsMember + [MemberRecord(userset, regKey, ownerKey, shard)])
    {
      Touch(user);
      var u := updates[user];
      var record := MemberRecord(userset, regKey, ownerKey, shard);
      updates := updates[user := u.(addedAsMember := u.addedAsMember + [record])];
      JoinEmpty(u);
    }

    method RegisterOwner(user: User, userset: Uuid, regKey: G, ownerKey: G, regShard: Shard, ownerShard: Shard)
      modifies this
      ensures updates == Register(old(updates), user,
                AddedAsOwner(OwnerRecord(MemberRecord(userset, regKey, ownerKey, regShard), ownerShard)))
      ensures var was := Pending(old(updates), user);
              Pending(updates, user)
              == was.(addedAsOwner := was.addedAsOwner
                                      + [OwnerRecord(MemberRecord(userset, regKey, ownerKey, regShard), ownerShard)])
    {
      Touch(user);
      var u := updates[user];
      var record := OwnerRecord(MemberRecord(userset, regKey, ownerKey, regShard), ownerShard);
      updates := updates[user := u.(addedAsOwner := u.addedAsOwner + [record])];
      JoinEmpty(u);
    }

    method RegisterLookup(user: User, op: Uuid)
      modifies this
      ensures updates == Register(old(updates), user, OnLookup(op))
      ensures var was := Pending(old(updates), user);
              Pending(updates, user) == was.(onLookup := was.onLookup + [op])
    {
      Touch(user);
      var u := updates[user];
      updates := updates[user := u.(onLookup := u.onLookup + [op])];
      JoinEmpty(u);
    }

    method RegisterDecryptionParticipating(user: User, op: Uuid, ciphertext: Ciphertext<G, C>, ids: seq<int>)
      modifies this
      ensures updates == Register(old(updates), user, ToDecrypt(ToDecryptRecord(op, ciphertext, ids)))
      ensures var was := Pending(old(updates), user);
              Pending(updates, user) == was.(toDecrypt := was.toDecrypt + [ToDecryptRecord(op, ciphertext, ids)])
    {
      Touch(user);
      var u := updates[user];
      updates := updates[user := u.(toDecrypt := u.toDecrypt + [ToDecryptRecord(op, ciphertext, ids)])];
      JoinEmpty(u);
    }

    method RegisterFinishedDecryption(user: User, op: Uuid, regParts: seq<G>, ownerParts: seq<G>,
                                      regIds: seq<int>, ownerIds: seq<int>)
      modifies this
      ensures updates == Register(old(updates), user,
                Finished(FinishedRecord(op, regParts, ownerParts, regIds, ownerIds)))
      ensures var was := Pending(old(updates), user);
              Pending(updates, user)
              == was.(finished := was.finished + [FinishedRecord(op, regParts, ownerParts, regIds, ownerIds)])
    {
      Touch(user);
      var u := updates[user];
      var record := FinishedRecord(op, regParts, ownerParts, regIds, ownerIds);
      updates := updates[user := u.(finished := u.finished + [record])];
      JoinEmpty(u);
    }
  }

  lemma JoinEmpty<G, C>(u: UpdateResponse<G, C>)
    ensures Join(u, NoUpdates()) == u && Join(NoUpdates(), u) == u
  {
    assert u.addedAsMember + [] == u.addedAsMember && u.addedAsOwner + [] == u.addedAsOwner;
    assert u.onLookup + [] == u.onLookup && u.toDecrypt + [] == u.toDecrypt && u.finished + [] == u.finished;
  }

  lemma JoinAssociative<G, C>(a: UpdateResponse<G, C>, b: UpdateResponse<G, C>, c: UpdateResponse<G, C>)
    ensures Join(Join(a, b), c) == Join(a, Join(b, c))
  {
    assert (a.addedAsMember + b.addedAsMember) + c.addedAsMember
        == a.addedAsMember + (b.addedAsMember + c.addedAsMember);
    assert (a.addedAsOwner + b.addedAsOwner) + c.addedAsOwner == a.addedAsOwner + (b.addedAsOwner + c.addedAsOwner);
    assert (a.onLookup + b.onLookup) + c.onLookup == a.onLookup + (b.onLookup + c.onLookup);
    assert (a.toDecrypt + b.toDecrypt) + c.toDecrypt == a.toDecrypt + (b.toDecrypt + c.toDecrypt);
    assert (a.finished + b.finished) + c.finished == a.finished + (b.finished + c.finished);
  }

  // ------------------------------------------------------------------------ runs

  /** Every method holds the manager's lock throughout, so a run is a sequence of whole calls. */
  datatype Call<G, C> = Registering(user: User, item: Item<G, C>) | Retrieving(user: User)

  function Run<G, C>(u: Updates<G, C>, calls: seq<Call<G, C>>): Updates<G, C> {
    if |calls| == 0 then u
    else
      var before := Run(u, calls[..|calls| - 1]);
      match calls[|calls| - 1]
      case Registering(user, item) => Register(before, user, item)
      case Retrieving(user) => before - {user}
  }

  /** The items registered for the user in a run, of all kinds and in order. */
  function ItemsFor<G, C>(calls: seq<Call<G, C>>, user: User): seq<Item<G, C>> {
    if |calls| == 0 then []
    else
      var last := calls[|calls| - 1];
      ItemsFor(calls[..|calls| - 1], user) + if last.Registering? && last.user == user then [last.item] else []
  }

  function MemberRecords<G, C>(items: seq<Item<G, C>>): seq<MemberRecord<G>> {
    if |items| == 0 then []
    else
      var last := items[|items| - 1];
      MemberRecords(items[..|items| - 1]) + if last.AddedAsMember? then [last.member] else []
  }

  function OwnerRecords<G, C>(items: seq<Item<G, C>>): seq<OwnerRecord<G>> {
    if |items| == 0 then []
    else
      var last := items[|items| - 1];
      OwnerRecords(items[..|items| - 1]) + if last.AddedAsOwner? then [last.owner] else []
  }

  function Lookups<G, C>(items: seq<Item<G, C>>): seq<Uuid> {
    if |items| == 0 then []
    else
      var last := items[|items| - 1];
      Lookups(items[..|items| - 1]) + if last.OnLookup? then [last.op] else []
  }

  function DecryptRecords<G, C>(items: seq<Item<G, C>>): seq<ToDecryptRecord<G, C>> {
    if |items| == 0 then []
    else
      var last := items[|items| - 1];
      DecryptRecords(items[..|items| - 1]) + if last.ToDecrypt? then [last.decrypt] else []
  }

  function FinishedRecords<G, C>(items: seq<Item<G, C>>): seq<FinishedRecord<G>> {
    if |items| == 0 then []
    else
      var last := items[|items| - 1];
      FinishedRecords(items[..|items| - 1]) + if last.Finished? then [last.finish] else []
  }

  /** The items sorted by kind, in order within each kind. */
  function ByKind<G, C>(items: seq<Item<G, C>>): UpdateResponse<G, C> {
    UpdateResponse(MemberRecords(items), OwnerRecords(items), Lookups(items), DecryptRecords(items),
                   FinishedRecords(items))
  }

  lemma ByKindPush<G, C>(items: seq<Item<G, C>>, item: Item<G, C>)
    ensures ByKind(items + [item]) == Join(ByKind(items), Only(item))
  {
    assert (items + [item])[..|items|] == items;
    JoinEmpty(ByKind(items));
  }

  /** Everything the user's retrievals returned in a run, in order. */
  function Retrieved<G, C>(u: Updates<G, C>, calls: seq<Call<G, C>>, user: User): UpdateResponse<G, C> {
    if |calls| == 0 then NoUpdates()
    else
      var before := Retrieved(u, calls[..|calls| - 1], user);
      match calls[|calls| - 1]
      case Registering(_, _) => before
      case Retrieving(v) => if v == user then Join(before, Pending(Run(u, calls[..|calls| - 1]), user)) else before
  }

  lemma {:induction false} ConservedTogether<G, C>(u: Updates<G, C>, calls: seq<Call<G, C>>, user: User)
    ensures Join(Retrieved(u, calls, user), Pending(Run(u, calls), user))
         == Join(Pending(u, user), ByKind(ItemsFor(calls, user)))
  {
    if |calls| == 0 {
      JoinEmpty(Pending(u, user));
    } else {
      var before := calls[..|calls| - 1];
      ConservedTogether(u, before, user);
      var got, left := Retrieved(u, before, user), Pending(Run(u, before), user);
      var items := ItemsFor(before, user);
      assert items + [] == items;
      match calls[|calls| - 1] {
        case Registering(v, item) =>
          if v == user {
            ByKindPush(items, item);
            JoinAssociative(got, left, Only(item));
            JoinAssociative(Pending(u, user), ByKind(items), Only(item));
          }
        case Retrieving(v) =>
          if v == user {
            JoinEmpty(Join(got, left));
          }
      }
    }
  }

  /** Nothing is lost, repeated, reordered within its kind, filed under another kind or given to another user. */
  lemma Conservation<G, C>(u: Updates<G, C>, calls: seq<Call<G, C>>, user: User)
    ensures var got, left, was := Retrieved(u, calls, user), Pending(Run(u, calls), user), Pending(u, user);
            var items := ItemsFor(calls, user);
            && got.addedAsMember + left.addedAsMember == was.addedAsMember + MemberRecords(items)
            && got.addedAsOwner + left.addedAsOwner == was.addedAsOwner + OwnerRecords(items)
            && got.onLookup + left.onLookup == was.onLookup + Lookups(items)
            && got.toDecrypt + left.toDecrypt == was.toDecrypt + DecryptRecords(items)
            && got.finished + left.finished == was.finished + FinishedRecords(items)
  {
    ConservedTogether(u, calls, user);
  }

  // ------------------------------------------------- the same item for several users

  lemma RegisteredOne<G, C>(u: Updates<G, C>, user: User, item: Item<G, C>, v: User)
    ensures Pending(Register(u, user, item), v)
         == if v == user then Join(Pending(u, v), Only(item)) else Pending(u, v)
  {
  }

  /** With nobody listed twice, each user listed has its one item behind what was pending, and nobody else anything. */
  lemma {:induction false} RegisteredOnce<G, C>(u: Updates<G, C>, users: seq<User>, item: User -> Item<G, C>, v: User)
    requires Distinct(users)
    ensures Pending(RegisterEach(u, users, item), v)
         == if v in users then Join(Pending(u, v), Only(item(v))) else Pending(u, v)
  {
    if |users| == 0 {
    } else {
      var t, last := users[..|users| - 1], users[|users| - 1];
      assert users == t + [last] && last !in t;
      RegisteredOnce(u, t, item, v);
      RegisteredOne(RegisterEach(u, t, item), last, item(last), v);
    }
  }

  lemma {:induction false} RegisterConcat<G, C>(u: Updates<G, C>, a: seq<User>, b: seq<User>,
                                                item: User -> Item<G, C>)
    ensures RegisterEach(u, a + b, item) == RegisterEach(RegisterEach(u, a, item), b, item)
  {
    if |b| == 0 {
      assert a + b == a;
    } else {
      RegisterConcat(u, a, b[..|b| - 1], item);
      assert (a + b)[..|a + b| - 1] == a + b[..|b| - 1];
    }
  }
}
