/** Users, usersets and the shard IDs of their members, kept in memory. */
module ServerStorage {
  import opened Ranges
  import opened Packets

  const MAX_MEMBERS := 255

  datatype UserSetInfo = UserSetInfo(owners: set<User>, regs: set<User>, ownersThreshold: nat, regsThreshold: nat) {
    function Members(): set<User> { owners + regs }
  }

  datatype Outcome<+T> = Success(value: T) | UserExists(user: User) | UserNotFound(user: User) | UserSetNotFound

  /** The stored maps; `used` holds every shard ID drawn for a userset. */
  datatype Storage = Storage(
    users: map<User, set<Uuid>>, usersets: map<Uuid, UserSetInfo>, used: map<Uuid, set<int>>,
    shardIds: map<(User, Uuid), int>)

  predicate IsShardId(id: int) { 1 <= id <= MAX_MEMBERS }

  /** The members' IDs in one userset: one each, in range and pairwise different. */
  ghost predicate MembersHaveIds(shardIds: map<(User, Uuid), int>, userset: Uuid, members: set<User>) {
    && (forall u :: u in members ==> (u, userset) in shardIds && IsShardId(shardIds[(u, userset)]))
    && (forall u, v :: u in members && v in members && u != v ==> shardIds[(u, userset)] != shardIds[(v, userset)])
  }

  ghost predicate IdsConsistent(s: Storage) {
    && (forall us :: us in s.usersets ==> MembersHaveIds(s.shardIds, us, s.usersets[us].Members()))
    && (forall k :: k in s.shardIds ==> k.1 in s.usersets && k.0 in s.usersets[k.1].Members())
  }

  ghost predicate OwnersConsistent(s: Storage) {
    && (forall us :: us in s.usersets ==> s.usersets[us].Members() <= s.users.Keys)
    && (forall u, us :: u in s.users ==> (us in s.users[u] <==> us in s.usersets && u in s.usersets[us].owners))
  }

  ghost predicate Consistent(s: Storage) {
    IdsConsistent(s) && OwnersConsistent(s)
  }

  /** What creating the userset changes; the IDs themselves are drawn at random. */
  ghost predicate UsersetAdded(s: Storage, t: Storage, userset: Uuid, info: UserSetInfo) {
    && userset !in s.usersets && info.Members() <= s.users.Keys
    && t.usersets == s.usersets[userset := info]
    && t.users.Keys == s.users.Keys
    && (forall u :: u in s.users ==> t.users[u] == if u in info.owners then s.users[u] + {userset} else s.users[u])
    && (forall k :: k in t.shardIds <==> k in s.shardIds || (k.1 == userset && k.0 in info.Members()))
    && (forall k :: k in s.shardIds && k.1 != userset ==> t.shardIds[k] == s.shardIds[k])
    && MembersHaveIds(t.shardIds, userset, info.Members())
  }

  ghost predicate UserAdded(s: Storage, t: Storage, user: User) {
    user !in s.users && t == s.(users := s.users[user := {}])
  }

  class ShortTermServerStorage {
    var users: map<User, set<Uuid>>
    var usersets: map<Uuid, UserSetInfo>
    var usersetShardIds: map<Uuid, set<int>>
    var shardIds: map<(User, Uuid), int>

    ghost function Current(): Storage
      reads this
    {
      Storage(users, usersets, usersetShardIds, shardIds)
    }

    constructor ()
      ensures Current() == Storage(map[], map[], map[], map[]) && Consistent(Current())
    {
      users, usersets, usersetShardIds, shardIds := map[], map[], map[], map[];
    }

    method NewUser(user: User) returns (r: Outcome<()>)
      modifies this
      ensures if user in old(users) then r == UserExists(user) && Current() == old(Current())
              else r == Success(()) && UserAdded(old(Current()), Current(), user)
    {
      if user in users {
        return UserExists(user);
      }
      users := users[user := {}];
      return Success(());
    }

    // Adds the userset to each of the owners' usersets.
    method AddToOwners(userset: Uuid, owners: set<User>)
      requires owners <= users.Keys
      modifies `users
      ensures users.Keys == old(users).Keys
      ensures forall u :: u in users ==> users[u] == if u in owners then old(users)[u] + {userset} else old(users)[u]
    {
      var rest := owners;
      while rest != {}
        invariant rest <= owners && users.Keys == old(users).Keys
        invariant forall u :: u in users && u in owners && u !in rest ==> users[u] == old(users)[u] + {userset}
        invariant forall u :: u in users && (u !in owners || u in rest) ==> users[u] == old(users)[u]
        decreases |rest|
      {
        var owner :| owner in rest;
        users := users[owner := users[owner] + {userset}];
        rest := rest - {owner};
      }
    }

    // Draws an ID for each member; a member that already has one keeps it, and the draw is spent all the same.
    method DrawShardIds(userset: Uuid, members: set<User>)
      requires userset in usersetShardIds && |usersetShardIds[userset]| + |members| <= MAX_MEMBERS
      requires forall id :: id in usersetShardIds[userset] ==> IsShardId(id)
      requires IdsDrawn(userset)
      modifies `usersetShardIds, `shardIds
      ensures userset in usersetShardIds && |usersetShardIds[userset]| == |old(usersetShardIds)[userset]| + |members|
      ensures forall id :: id in usersetShardIds[userset] ==> IsShardId(id)
      ensures IdsDrawn(userset)
      ensures forall k :: k in shardIds <==> k in old(shardIds) || (k.1 == userset && k.0 in members)
      ensures forall k :: k in old(shardIds) ==> shardIds[k] == old(shardIds)[k]
    {
      var rest := members;
      while rest != {}
        invariant rest <= members && userset in usersetShardIds
        invariant |usersetShardIds[userset]| == |old(usersetShardIds)[userset]| + |members| - |rest|
        invariant forall id :: id in usersetShardIds[userset] ==> IsShardId(id)
        invariant IdsDrawn(userset)
        invariant forall k :: k in shardIds <==> k in old(shardIds) || (k.1 == userset && k.0 in members - rest)
        invariant forall k :: k in old(shardIds) ==> shardIds[k] == old(shardIds)[k]
        decreases |rest|
      {
        var member :| member in rest;
        assert |rest - {member}| == |rest| - 1;
        IdLeft(usersetShardIds[userset]);
        var id :| 1 <= id <= MAX_MEMBERS && id !in usersetShardIds[userset];
        usersetShardIds := usersetShardIds[userset := usersetShardIds[userset] + {id}];
        if (member, userset) !in shardIds {
          shardIds := shardIds[(member, userset) := id];
        }
        rest := rest - {member};
      }
    }

    /** Every ID given out in the userset was drawn for it, and to one member only. */
    ghost predicate IdsDrawn(userset: Uuid)
      requires userset in usersetShardIds
      reads this
    {
      && (forall u :: (u, userset) in shardIds ==> shardIds[(u, userset)] in usersetShardIds[userset])
      && (forall u, v :: (u, userset) in shardIds && (v, userset) in shardIds && u != v ==>
            shardIds[(u, userset)] != shardIds[(v, userset)])
    }

    /** More than 255 members would leave the sampling of shard IDs without an ID to draw. */
    method NewUserset(owners: seq<User>, regs: seq<User>, ownersThreshold: nat, regsThreshold: nat, sampled: Uuid)
      returns (r: Outcome<Uuid>)
      requires Consistent(Current()) && sampled !in usersets
      requires |Elements(owners)| + |Elements(regs)| <= MAX_MEMBERS
      modifies this
      ensures Consistent(Current())
      ensures r == Success(sampled) || r.UserNotFound?
      ensures r.Success? <==> Elements(owners) + Elements(regs) <= old(users).Keys
      ensures r.Success? ==> UsersetAdded(old(Current()), Current(), sampled,
                               UserSetInfo(Elements(owners), Elements(regs), ownersThreshold, regsThreshold))
      ensures r.UserNotFound? ==> Current() == old(Current()) && r.user in owners + regs && r.user !in users
    {
      var info := UserSetInfo(Elements(owners), Elements(regs), ownersThreshold, regsThreshold);
      var missing := info.Members() - users.Keys;
      if missing != {} {
        var member :| member in missing;
        return UserNotFound(member);
      }
      ghost var before := Current();
      NothingMissing(info.Members(), users.Keys);
      usersets := usersets[sampled := info];
      AddToOwners(sampled, info.owners);
      usersetShardIds := usersetShardIds[sampled := {}];
      DrawShardIds(sampled, info.owners);
      DrawShardIds(sampled, info.regs);
      AddedConsistent(before, Current(), sampled, info);
      return Success(sampled);
    }

    method UserOwnsUserset(user: User, userset: Uuid) returns (r: Outcome<bool>)
      ensures r == if user in users then Success(userset in users[user]) else UserNotFound(user)
      ensures Consistent(Current()) && user in users ==>
                (r.value <==> userset in usersets && user in usersets[userset].owners)
    {
      if user !in users {
        return UserNotFound(user);
      }
      return Success(userset in users[user]);
    }

    method GetUsersetInfo(userset: Uuid) returns (r: Outcome<UserSetInfo>)
      ensures r == if userset in usersets then Success(usersets[userset]) else UserSetNotFound
    {
      if userset !in usersets {
        return UserSetNotFound;
      }
      return Success(usersets[userset]);
    }

    /** For somebody who is not a member the lookup throws; None stands for that. */
    method GetShardId(user: User, userset: Uuid) returns (id: Option<int>)
      ensures id == if (user, userset) in shardIds then Some(shardIds[(user, userset)]) else None
    {
      if (user, userset) !in shardIds {
        return None;
      }
      return Some(shardIds[(user, userset)]);
    }
  }

  lemma IdLeft(used: set<int>)
    requires |used| < MAX_MEMBERS
    ensures exists id :: 1 <= id <= MAX_MEMBERS && id !in used
  {
    var all := Elements(UpTo(MAX_MEMBERS));
    DistinctBySize(UpTo(MAX_MEMBERS));
    if all <= used {
      SubsetSize(all, used);
    }
    var id :| id in all && id !in used;
  }

  lemma NothingMissing<T>(a: set<T>, b: set<T>)
    requires a - b == {}
    ensures a <= b
  {
    assert forall x :: x in a ==> x in a - b || x in b;
  }

  lemma AddedOwners(s: Storage, t: Storage, userset: Uuid, info: UserSetInfo)
    requires OwnersConsistent(s) && UsersetAdded(s, t, userset, info)
    ensures OwnersConsistent(t)
  {
  }

  lemma AddedIds(s: Storage, t: Storage, userset: Uuid, info: UserSetInfo)
    requires IdsConsistent(s) && UsersetAdded(s, t, userset, info)
    ensures IdsConsistent(t)
  {
    forall us | us in t.usersets ensures MembersHaveIds(t.shardIds, us, t.usersets[us].Members()) {
      if us != userset {
        assert MembersHaveIds(s.shardIds, us, s.usersets[us].Members());
      }
    }
  }

  lemma AddedConsistent(s: Storage, t: Storage, userset: Uuid, info: UserSetInfo)
    requires Consistent(s) && UsersetAdded(s, t, userset, info)
    ensures Consistent(t)
  {
    AddedOwners(s, t, userset, info);
    AddedIds(s, t, userset, info);
  }

  datatype Change = NewUser(user: User) | NewUserset(userset: Uuid, info: UserSetInfo)

  ghost predicate Changed(s: Storage, c: Change, t: Storage) {
    match c
    case NewUser(user) => UserAdded(s, t, user)
    case NewUserset(userset, info) => UsersetAdded(s, t, userset, info)
  }

  /** Every sequence of changes, from empty storage on, leads through consistent states only. */
  lemma {:induction false} ReachableConsistent(states: seq<Storage>, changes: seq<Change>)
    requires |states| == |changes| + 1 && states[0] == Storage(map[], map[], map[], map[])
    requires forall i :: 0 <= i < |changes| ==> Changed(states[i], changes[i], states[i + 1])
    ensures Consistent(states[|changes|])
  {
    if |changes| == 0 {
    } else {
      var n := |changes| - 1;
      ReachableConsistent(states[..n + 1], changes[..n]);
      assert Changed(states[n], changes[n], states[n + 1]);
      if changes[n].NewUserset? {
        AddedConsistent(states[n], states[n + 1], changes[n].userset, changes[n].info);
      }
    }
  }
}
