/** Two-layer hybrid El-Gamal and its threshold decryption with Shamir shards of the private keys. */
module ElGamal {
  import opened Numbers
  import opened Ranges
  import opened ModInt
  import opened Interpolation
  import opened Shamir
  import Poly

  datatype Group<!G> = Group(op: (G, G) -> G, id: G, gen: G, order: nat)

  function GroupPow<G>(g: Group<G>, a: G, e: nat): G {
    if e == 0 then g.id else g.op(a, GroupPow(g, a, e - 1))
  }

  /** A group of prime order: raising any element to the order gives the identity. */
  ghost predicate PrimeOrdered<G(!new)>(g: Group<G>) {
    && Prime(g.order)
    && (forall a, b, c {:trigger g.op(g.op(a, b), c)} :: g.op(g.op(a, b), c) == g.op(a, g.op(b, c)))
    && (forall a :: g.op(g.id, a) == a && g.op(a, g.id) == a)
    && (forall a :: GroupPow(g, a, g.order) == g.id)
  }

  lemma {:induction false} GroupPowAdd<G(!new)>(g: Group<G>, a: G, d: nat, e: nat)
    requires PrimeOrdered(g)
    ensures GroupPow(g, a, d + e) == g.op(GroupPow(g, a, d), GroupPow(g, a, e))
  {
    if d == 0 {
    } else {
      GroupPowAdd(g, a, d - 1, e);
    }
  }

  lemma {:induction false} GroupPowMul<G(!new)>(g: Group<G>, a: G, d: nat, e: nat, n: nat)
    requires PrimeOrdered(g) && n == d * e
    ensures GroupPow(g, a, n) == GroupPow(g, GroupPow(g, a, d), e)
  {
    if e == 0 {
    } else {
      var m := LessOne(d, e, n);
      GroupPowMul(g, a, d, e - 1, m);
      GroupPowAdd(g, a, d, m);
    }
  }

  lemma LessOne(d: nat, e: nat, n: nat) returns (m: nat)
    requires e > 0 && n == d * e
    ensures m == d * (e - 1) && n == d + m
  {
    m := d * (e - 1);
  }

  lemma {:induction false} IdentityPow<G(!new)>(g: Group<G>, e: nat)
    requires PrimeOrdered(g)
    ensures GroupPow(g, g.id, e) == g.id
  {
    if e == 0 {
    } else {
      IdentityPow(g, e - 1);
    }
  }

  /** Exponents only matter modulo the order. */
  lemma GroupPowMod<G(!new)>(g: Group<G>, a: G, e: nat)
    requires PrimeOrdered(g)
    ensures GroupPow(g, a, e) == GroupPow(g, a, e % g.order)
  {
    var k, n := FullTurns(e, g.order);
    FullTurnsVanish(g, a, k, n, e % g.order);
  }

  lemma FullTurnsVanish<G(!new)>(g: Group<G>, a: G, k: nat, n: nat, r: nat)
    requires PrimeOrdered(g) && n == g.order * k
    ensures GroupPow(g, a, n + r) == GroupPow(g, a, r)
  {
    GroupPowMul(g, a, g.order, k, n);
    IdentityPow(g, k);
    GroupPowAdd(g, a, n, r);
  }

  lemma FullTurns(e: nat, q: nat) returns (k: nat, n: nat)
    requires q > 0
    ensures n == q * k && e == n + e % q
  {
    k, n := e / q, q * (e / q);
  }

  /** Of anything but the identity, exactly the powers to multiples of the order are the identity. */
  lemma IdentityExactly<G(!new)>(g: Group<G>, a: G, n: nat)
    requires PrimeOrdered(g) && a != g.id
    ensures GroupPow(g, a, n) == g.id <==> Divides(g.order, n)
  {
    DividesRemainder(g.order, n);
    if Divides(g.order, n) {
      GroupPowMod(g, a, n);
    } else if GroupPow(g, a, n) == g.id {
      var i, product := InverseExponent(g.order, n);
      RootOfPower(g, a, n, i, product);
      IdentityPow(g, i);
    }
  }

  lemma InverseExponent(q: nat, n: nat) returns (i: nat, product: nat)
    requires Prime(q) && !Divides(q, n)
    ensures product == n * i && product % q == 1
  {
    InverseCorrect(q, n);
    i, product := PrimeInverse(q, n), n * PrimeInverse(q, n);
    ModsAgree(product, 1, q);
    SmallRemainder(1, q);
  }

  /** An inverse of the exponent takes a power back to its base. */
  lemma RootOfPower<G(!new)>(g: Group<G>, a: G, n: nat, i: nat, product: nat)
    requires PrimeOrdered(g) && product == n * i && product % g.order == 1
    ensures GroupPow(g, GroupPow(g, a, n), i) == a
  {
    GroupPowMul(g, a, n, i, product);
    GroupPowMod(g, a, product);
    assert GroupPow(g, a, 1) == g.op(a, GroupPow(g, a, 0));
  }

  /** Powers of anything but the identity agree exactly when the exponents do modulo the order. */
  lemma PowersAgreeExactly<G(!new)>(g: Group<G>, a: G, x: nat, y: nat)
    requires PrimeOrdered(g) && a != g.id
    ensures GroupPow(g, a, x) == GroupPow(g, a, y) <==> Congruent(x, y, g.order)
  {
    var z := Complement(y, g.order);
    GroupPowAdd(g, a, x, z);
    GroupPowAdd(g, a, y, z);
    IdentityExactly(g, a, y + z);
    IdentityExactly(g, a, x + z);
    if Divides(g.order, x + z) {
      DividesLinear(g.order, x + z, y + z, 1, -1);
    }
    if Congruent(x, y, g.order) {
      ModsAgree(x, y, g.order);
      GroupPowMod(g, a, x);
      GroupPowMod(g, a, y);
    }
  }

  lemma Complement(y: nat, q: nat) returns (z: nat)
    requires q > 0
    ensures Divides(q, y + z)
  {
    z := q - y % q;
    assert y + z == q * (y / q + 1);
    DividesIntro(q, y / q + 1, y + z);
  }

  // -------------------------------------------------------------------- schema

  datatype Ciphertext<G, C> = Ciphertext(c1: G, c2: G, c3: C)

  /** The group, the key derivation and a symmetric cipher whose encryption takes a nonce. */
  datatype Schema<!G, !K, !M, !C> =
    Schema(group: Group<G>, kdf: (G, G) -> K, symEncrypt: (M, K, nat) -> C, symDecrypt: (C, K) -> M)

  ghost predicate ValidSchema<G(!new), K(!new), M(!new), C(!new)>(s: Schema<G, K, M, C>) {
    && PrimeOrdered(s.group)
    && forall m, k, n :: s.symDecrypt(s.symEncrypt(m, k, n), k) == m
  }

  /** The public key that `keygen` pairs with a sampled private key. */
  function PublicKey<G>(g: Group<G>, privKey: nat): G {
    GroupPow(g, g.gen, privKey)
  }

  function Encrypt<G, K, M, C>(s: Schema<G, K, M, C>, m: M, pub1: G, pub2: G, r1: nat, r2: nat, nonce: nat)
    : Ciphertext<G, C>
  {
    var k := s.kdf(GroupPow(s.group, pub1, r1), GroupPow(s.group, pub2, r2));
    Ciphertext(GroupPow(s.group, s.group.gen, r1), GroupPow(s.group, s.group.gen, r2), s.symEncrypt(m, k, nonce))
  }

  function Decrypt<G, K, M, C>(s: Schema<G, K, M, C>, c: Ciphertext<G, C>, privKey1: nat, privKey2: nat): M {
    s.symDecrypt(c.c3, s.kdf(GroupPow(s.group, c.c1, privKey1), GroupPow(s.group, c.c2, privKey2)))
  }

  lemma SharedSecret<G(!new)>(g: Group<G>, a: nat, r: nat)
    requires PrimeOrdered(g)
    ensures GroupPow(g, GroupPow(g, g.gen, a), r) == GroupPow(g, GroupPow(g, g.gen, r), a)
  {
    GroupPowMul(g, g.gen, a, r, a * r);
    GroupPowMul(g, g.gen, r, a, a * r);
  }

  /** Decrypting with the private keys undoes encrypting under the matching public keys. */
  lemma DecryptUndoesEncrypt<G(!new), K(!new), M(!new), C(!new)>(
    s: Schema<G, K, M, C>, m: M, privKey1: nat, privKey2: nat, r1: nat, r2: nat, nonce: nat)
    requires ValidSchema(s)
    ensures var c := Encrypt(s, m, PublicKey(s.group, privKey1), PublicKey(s.group, privKey2), r1, r2, nonce);
            Decrypt(s, c, privKey1, privKey2) == m
  {
    SharedSecret(s.group, privKey1, r1);
    SharedSecret(s.group, privKey2, r2);
  }

  /**
   * What the sender computed for a layer, the holder of its private key gets from the ciphertext; any other exponent
   * gets that from it if and only if it is congruent to the key, or the sender's random exponent to 0.
   */
  lemma KeyOpensExactly<G(!new)>(g: Group<G>, privKey: nat, r: nat, x: nat)
    requires PrimeOrdered(g) && g.gen != g.id
    ensures GroupPow(g, GroupPow(g, g.gen, r), x) == GroupPow(g, PublicKey(g, privKey), r)
            <==> Congruent(x, privKey, g.order) || Divides(g.order, r)
  {
    var forX, forKey := CommonFactor(g.order, r, x, privKey);
    GroupPowMul(g, g.gen, r, x, forX);
    GroupPowMul(g, g.gen, privKey, r, forKey);
    PowersAgreeExactly(g, g.gen, forX, forKey);
  }

  lemma CommonFactor(q: nat, r: nat, x: nat, y: nat) returns (a: nat, b: nat)
    requires Prime(q)
    ensures a == r * x && b == r * y == y * r
    ensures Congruent(a, b, q) <==> Congruent(x, y, q) || Divides(q, r)
  {
    a, b := r * x, r * y;
    assert a - b == r * (x - y);
    if Divides(q, r) {
      FactorDivides(q, r, x - y);
    } else if Congruent(a, b, q) {
      DomainCancel(q, r, x - y);
    }
    if Congruent(x, y, q) {
      CongruentScale(r, x, y, q);
    }
  }

  lemma FactorDivides(m: int, a: int, b: int)
    requires Divides(m, a)
    ensures Divides(m, a * b)
  {
    DividesLinear(m, a, a, b, 0);
  }

  /**
   * The message is encrypted under the key derived from both layers' secrets, the first layer's first. Each can be
   * computed from its element of the ciphertext by the matching private key; by no other, unless the random exponent
   * was a multiple of the order, and then by all.
   */
  lemma MatchingKeysOpen<G(!new), K(!new), M(!new), C(!new)>(
    s: Schema<G, K, M, C>, m: M, privKey1: nat, privKey2: nat, r1: nat, r2: nat, nonce: nat, x: nat)
    requires PrimeOrdered(s.group) && s.group.gen != s.group.id
    ensures var g := s.group;
            var c := Encrypt(s, m, PublicKey(g, privKey1), PublicKey(g, privKey2), r1, r2, nonce);
            && c.c3 == s.symEncrypt(m, s.kdf(GroupPow(g, c.c1, privKey1), GroupPow(g, c.c2, privKey2)), nonce)
            && (GroupPow(g, c.c1, x) == GroupPow(g, c.c1, privKey1) <==>
                  Congruent(x, privKey1, g.order) || Divides(g.order, r1))
            && (GroupPow(g, c.c2, x) == GroupPow(g, c.c2, privKey2) <==>
                  Congruent(x, privKey2, g.order) || Divides(g.order, r2))
  {
    SharedSecret(s.group, privKey1, r1);
    SharedSecret(s.group, privKey2, r2);
    KeyOpensExactly(s.group, privKey1, r1, x);
    KeyOpensExactly(s.group, privKey2, r2, x);
  }

  /** Two encryptions agree in an element exactly when their random exponents do modulo the order. */
  lemma ElementsAgreeExactly<G(!new), K(!new), M(!new), C(!new)>(
    s: Schema<G, K, M, C>, m: M, pub1: G, pub2: G, r1: nat, r2: nat, nonce: nat, m': M, pub1': G, pub2': G,
    r1': nat, r2': nat, nonce': nat)
    requires PrimeOrdered(s.group) && s.group.gen != s.group.id
    ensures var c := Encrypt(s, m, pub1, pub2, r1, r2, nonce);
            var d := Encrypt(s, m', pub1', pub2', r1', r2', nonce');
            && (c.c1 == d.c1 <==> Congruent(r1, r1', s.group.order))
            && (c.c2 == d.c2 <==> Congruent(r2, r2', s.group.order))
  {
    PowersAgreeExactly(s.group, s.group.gen, r1, r1');
    PowersAgreeExactly(s.group, s.group.gen, r2, r2');
  }

  // -------------------------------------------------------- threshold decryption

  datatype Layer = RegLayer | OwnerLayer

  function LayerElement<G, C>(c: Ciphertext<G, C>, layer: Layer): G {
    if layer.RegLayer? then c.c1 else c.c2
  }

  /** The index of an ID in a list of IDs. */
  function IndexOf(ids: seq<int>, id: int): (i: nat)
    requires id in ids
    ensures i < |ids| && ids[i] == id
  {
    if ids[|ids| - 1] == id then |ids| - 1 else IndexOf(ids[..|ids| - 1], id)
  }

  /** One member's part: the layer's element raised to the weighted shard value. */
  function Part<G>(g: Group<G>, c: G, shard: Shard, ids: seq<int>): G
    requires g.order >= 2 && shard.id in ids
  {
    GroupPow(g, c, Mul(g.order, shard.value, LagrangeCoeff(g.order, IndexOf(ids, shard.id), ids)))
  }

  /** What is wrong with a list of IDs, in the order `decrypt_get_2l` finds out. */
  function Rejection(ids: seq<int>, id: int): Result<()> {
    if 0 in ids then Err(ZeroId)
    else if !Distinct(ids) then Err(DuplicateId)
    else if id !in ids then Err(MissingId)
    else Ok(())
  }

  /** A member's part, or why the list of IDs is refused. */
  function GetPart<G>(g: Group<G>, c: G, shard: Shard, ids: seq<int>): Result<G>
    requires g.order >= 2
  {
    match Rejection(ids, shard.id)
    case Err(e) => Err(e)
    case Ok(_) => Ok(Part(g, c, shard, ids))
  }

  /** Which lists are refused, and for what reason. */
  lemma RefusedExactly<G>(g: Group<G>, c: G, shard: Shard, ids: seq<int>)
    requires g.order >= 2
    ensures var r := GetPart(g, c, shard, ids);
            && (r.Ok? <==> ValidIds(ids) && shard.id in ids)
            && (0 in ids ==> r == Err(ZeroId))
            && (0 !in ids && !Distinct(ids) ==> r == Err(DuplicateId))
            && (ValidIds(ids) && shard.id !in ids ==> r == Err(MissingId))
  {
  }

  lemma IndexUnique(ids: seq<int>, i: nat)
    requires Distinct(ids) && i < |ids|
    ensures IndexOf(ids, ids[i]) == i
  {
  }

  method DecryptGet2l<G, C>(g: Group<G>, layer: Layer, ciphertext: Ciphertext<G, C>, shard: Shard, ids: seq<int>)
    returns (r: Result<G>)
    requires g.order >= 2
    ensures r == GetPart(g, LayerElement(ciphertext, layer), shard, ids)
  {
    var c := LayerElement(ciphertext, layer);
    var used: set<int> := {};
    var index := -1;
    for i := 0 to |ids|
      invariant used == Elements(ids[..i]) && 0 !in ids[..i]
      invariant if shard.id in ids[..i] then 0 <= index < i && ids[index] == shard.id else index == -1
    {
      if ids[i] == 0 {
        return Err(ZeroId);
      }
      assert ids[..i + 1] == ids[..i] + [ids[i]];
      ElementsPush(ids[..i], ids[i]);
      used := used + {ids[i]};
      if ids[i] == shard.id {
        index := i;
      }
    }
    assert ids[..|ids|] == ids;
    DistinctBySize(ids);
    if |ids| != |used| {
      return Err(DuplicateId);
    }
    if index == -1 {
      return Err(MissingId);
    }
    IndexUnique(ids, index);
    var exponent := Mul(g.order, shard.value, LagrangeCoeff(g.order, index, ids));
    return Ok(GroupPow(g, c, exponent));
  }

  function Join<G, K, M, C>(s: Schema<G, K, M, C>, c: Ciphertext<G, C>, parts1: seq<G>, parts2: seq<G>): M {
    var z1 := Accumulate(s.group.op, s.group.id, parts1);
    var z2 := Accumulate(s.group.op, s.group.id, parts2);
    s.symDecrypt(c.c3, s.kdf(z1, z2))
  }

  /** A product of powers of one element is its power to the modular sum of the exponents. */
  lemma {:induction false} PowersAccumulate<G(!new)>(g: Group<G>, c: G, es: seq<int>, parts: seq<G>)
    requires PrimeOrdered(g) && |es| == |parts|
    requires forall i :: 0 <= i < |es| ==> 0 <= es[i] && parts[i] == GroupPow(g, c, es[i])
    ensures Accumulate(AddOp(g.order), 0, es) >= 0
    ensures Accumulate(g.op, g.id, parts) == GroupPow(g, c, Accumulate(AddOp(g.order), 0, es))
  {
    var n := |es| - 1;
    if n <= 0 {
    } else {
      PowersAccumulate(g, c, es[..n], parts[..n]);
      var a := Accumulate(AddOp(g.order), 0, es[..n]);
      GroupPowAdd(g, c, a, es[n]);
      GroupPowMod(g, c, a + es[n]);
    }
  }

  /** The part of the member with this shard ID, who may have seen the IDs in another order. */
  ghost predicate IsPartOf<G>(g: Group<G>, c: G, coeffs: seq<nat>, id: int, ids: seq<int>, list: seq<int>, part: G)
    requires g.order >= 2
  {
    multiset(list) == multiset(ids) && id in list && part == Part(g, c, ShardAt(g.order, coeffs)(id), list)
  }

  ghost predicate PartsOf<G>(g: Group<G>, c: G, coeffs: seq<nat>, ids: seq<int>, lists: seq<seq<int>>, parts: seq<G>) {
    && g.order >= 2 && |ids| == |lists| == |parts|
    && forall i {:trigger parts[i]} :: 0 <= i < |ids| ==> IsPartOf(g, c, coeffs, ids[i], ids, lists[i], parts[i])
  }

  /** Parts over more shards than the key polynomial's degree multiply to the full decryption of the layer. */
  lemma PartsMultiply<G(!new)>(g: Group<G>, c: G, coeffs: seq<nat>, ids: seq<int>, lists: seq<seq<int>>, parts: seq<G>)
    requires PrimeOrdered(g) && DistinctMod(g.order, ids) && 0 < |coeffs| <= |ids| && coeffs[0] < g.order
    requires PartsOf(g, c, coeffs, ids, lists, parts)
    ensures Accumulate(g.op, g.id, parts) == GroupPow(g, c, coeffs[0])
  {
    var es := Exponents(g.order, coeffs, ids);
    forall i | 0 <= i < |ids| ensures parts[i] == GroupPow(g, c, es[i]) {
      assert IsPartOf(g, c, coeffs, ids[i], ids, lists[i], parts[i]);
      CoeffOrderIndependent(g.order, IndexOf(lists[i], ids[i]), lists[i], i, ids);
    }
    PowersAccumulate(g, c, es, parts);
    AccumulatedSum(g.order, coeffs, ids, Coeffs(g.order, ids), es);
    WeightedValues(g.order, coeffs, ids);
  }

  /** The weighted shard values that the parts of these IDs carry in their exponents. */
  function Exponents(q: nat, coeffs: seq<nat>, ids: seq<int>): (es: seq<int>)
    requires q >= 2
    ensures |es| == |ids|
    ensures forall i :: 0 <= i < |ids| ==> es[i] == Mul(q, Poly.Value(coeffs, ids[i]) % q, Coeffs(q, ids)[i])
  {
    seq(|ids|, i requires 0 <= i < |ids| => Mul(q, Poly.Value(coeffs, ids[i]) % q, Coeffs(q, ids)[i]))
  }

  /** Joining the parts of both layers gives what plain decryption with the two shared keys gives. */
  lemma JoinIsDecrypt<G(!new), K(!new), M(!new), C(!new)>(
    s: Schema<G, K, M, C>, c: Ciphertext<G, C>, coeffs1: seq<nat>, coeffs2: seq<nat>,
    ids1: seq<int>, lists1: seq<seq<int>>, parts1: seq<G>, ids2: seq<int>, lists2: seq<seq<int>>, parts2: seq<G>)
    requires ValidSchema(s)
    requires DistinctMod(s.group.order, ids1) && 0 < |coeffs1| <= |ids1| && coeffs1[0] < s.group.order
    requires DistinctMod(s.group.order, ids2) && 0 < |coeffs2| <= |ids2| && coeffs2[0] < s.group.order
    requires PartsOf(s.group, c.c1, coeffs1, ids1, lists1, parts1)
    requires PartsOf(s.group, c.c2, coeffs2, ids2, lists2, parts2)
    ensures Join(s, c, parts1, parts2) == Decrypt(s, c, coeffs1[0], coeffs2[0])
  {
    PartsMultiply(s.group, c.c1, coeffs1, ids1, lists1, parts1);
    PartsMultiply(s.group, c.c2, coeffs2, ids2, lists2, parts2);
  }
}
