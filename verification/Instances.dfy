/** The assumptions of the other modules can be met: a concrete group, schema, curve, cipher, userset and run. */
module Instances {
  import opened Numbers
  import opened Packets
  import opened Shamir
  import opened ElGamal
  import opened DecryptionsManager
  import opened OperationRuns
  import opened OperationView
  import opened ServerStorage
  import opened ClientHandler
  import opened EndToEnd
  import opened ByteCodec
  import PacketCodec
  import opened PointCodec
  import P = ProfileStorage

  const ORDER: nat := 257

  type Residue = x: int | 0 <= x < ORDER

  function Added(a: Residue, b: Residue): Residue { (a + b) % ORDER }

  /** The residues under addition, with 1 as generator. */
  function Residues(): Group<Residue> { Group(Added, 0, 1, ORDER) }

  lemma OrderPrime()
    ensures Prime(ORDER)
  {
    forall d | 2 <= d < ORDER ensures !Divides(d, ORDER) {
      if Divides(d, ORDER) {
        var k := DividesElim(d, ORDER);
        if d <= 16 {
          FactorAtMost16(d, k);
        } else {
          CofactorSmall(d, k, ORDER);
          FactorAtMost16(k, d);
        }
      }
    }
  }

  lemma CofactorSmall(d: int, k: int, n: int)
    requires 17 <= d < n < 17 * 17 && d * k == n
    ensures 2 <= k <= 16
  {
    ProductBounds(d, k);
  }

  lemma ProductBounds(d: int, k: int)
    requires 17 <= d
    ensures k <= 1 ==> d * k <= d
    ensures k >= 17 ==> d * k >= 17 * 17
  {
    if k <= 1 {
      assert d * k == d - d * (1 - k);
    } else if k >= 17 {
      assert d * k == 17 * k + (d - 17) * k;
    }
  }

  lemma FactorAtMost16(d: int, k: int)
    requires 2 <= d <= 16
    ensures d * k != ORDER
  {
    if d == 2 {} else if d == 3 {} else if d == 4 {} else if d == 5 {} else if d == 6 {} else if d == 7 {}
    else if d == 8 {} else if d == 9 {} else if d == 10 {} else if d == 11 {} else if d == 12 {} else if d == 13 {}
    else if d == 14 {} else if d == 15 {} else {}
  }

  lemma {:induction false} ResiduePow(a: Residue, e: nat, n: nat)
    requires n == a * e
    ensures GroupPow(Residues(), a, e) == n % ORDER
  {
    if e == 0 {
    } else {
      var m := LessOne(a, e, n);
      ResiduePow(a, e - 1, m);
      AddReducedOnce(a, m);
    }
  }

  lemma AddReducedOnce(a: Residue, m: nat)
    ensures Added(a, m % ORDER) == (a + m) % ORDER
  {
    CongruentMod(m, ORDER);
    CongruentReflexive(a, ORDER);
    CongruentAdd(a, a, m % ORDER, m, ORDER);
    ModsAgree(a + m % ORDER, a + m, ORDER);
  }

  lemma ResidueFullTurn(a: Residue)
    ensures GroupPow(Residues(), a, ORDER) == 0
  {
    var n: nat := ORDER * a;
    DividesIntro(ORDER, a, n);
    DividesRemainder(ORDER, n);
    ResiduePow(a, ORDER, n);
  }

  lemma AddedAssociative(a: Residue, b: Residue, c: Residue)
    ensures Added(Added(a, b), c) == Added(a, Added(b, c))
  {
    AddReducedOnce(c, a + b);
    AddReducedOnce(a, b + c);
  }

  lemma ResiduesPrimeOrdered()
    ensures PrimeOrdered(Residues())
  {
    OrderPrime();
    forall a, b, c ensures Added(Added(a, b), c) == Added(a, Added(b, c)) {
      AddedAssociative(a, b, c);
    }
    forall a ensures GroupPow(Residues(), a, ORDER) == 0 {
      ResidueFullTurn(a);
    }
  }

  /** Key derivation by addition, and encryption by adding the key. */
  function Adding(): Schema<Residue, int, int, int> {
    Schema(Residues(), (a: Residue, b: Residue) => a as int + b as int, (m, k, _) => m + k, (c, k) => c - k)
  }

  lemma AddingValid()
    ensures ValidSchema(Adding())
  {
    ResiduesPrimeOrdered();
  }

  /** Curve y^2 = x^3 over the field of three elements: (0, 0), (1, 1) and (1, 2). */
  function TinyCurve(): Curve {
    Curve(3, 0, 0, (x, odd) => if x == 0 && !odd then Some(0) else if x == 1 then Some(if odd then 1 else 2) else None)
  }

  lemma TinyPoints(x: nat, y: nat)
    ensures OnCurve(TinyCurve(), x, y) <==> (x == 0 && y == 0) || (x == 1 && (y == 1 || y == 2))
  {
    if x == 0 {} else if x == 1 {} else if x == 2 {}
    if y == 0 {} else if y == 1 {} else if y == 2 {}
  }

  lemma TinyField()
    ensures Prime(3) && 3 <= Power256(FIELD_SIZE)
  {
    DividesRemainder(2, 3);
    Power256Monotone(1, FIELD_SIZE);
    assert Power256(1) == 256 * Power256(0);
  }

  lemma TinyRecover(x: nat, odd: bool)
    ensures Recovers(TinyCurve(), x, odd)
  {
    forall y ensures OnCurve(TinyCurve(), x, y) <==> (x == 0 && y == 0) || (x == 1 && (y == 1 || y == 2)) {
      TinyPoints(x, y);
    }
  }

  lemma TinyCurveValid()
    ensures ValidCurve(TinyCurve())
  {
    TinyField();
    forall x, odd: bool ensures Recovers(TinyCurve(), x, odd) {
      TinyRecover(x, odd);
    }
  }

  /** A cipher that puts the plaintext into its second blob. */
  function PlainCipher(): P.Cipher { P.Cipher((b, _) => ([0], b), (s: PacketCodec.Sealed) => s.1) }

  lemma PlainCipherValid()
    ensures P.ValidCipher(PlainCipher())
  {
  }

  // -------------------------------------------------------------- one small run

  function SmallStorage(userset: Uuid, alice: User, bob: User): Storage {
    Storage(map[alice := {userset}, bob := {userset}], map[userset := UserSetInfo({alice, bob}, {}, 1, 0)],
            map[userset := {1, 2}], map[(alice, userset) := 1, (bob, userset) := 2])
  }

  function SmallKeys(alice: User, regKey: nat, ownerKey: nat, slope: nat): Keys {
    Keys([regKey], [ownerKey, slope], u => if u == alice then 1 else 2)
  }

  lemma SmallConsistent(userset: Uuid, alice: User, bob: User)
    requires alice != bob
    ensures Consistent(SmallStorage(userset, alice, bob))
  {
    var st := SmallStorage(userset, alice, bob);
    assert st.usersets[userset].Members() == {alice, bob};
    assert MembersHaveIds(st.shardIds, userset, {alice, bob});
    assert IdsConsistent(st);
    assert OwnersConsistent(st);
  }

  lemma SmallStaffed(q: nat, userset: Uuid, alice: User, bob: User, regKey: nat, ownerKey: nat, slope: nat)
    requires q > MAX_MEMBERS && alice != bob && regKey < q && ownerKey < q
    ensures Staffed(q, SmallKeys(alice, regKey, ownerKey, slope), SmallStorage(userset, alice, bob), userset, alice,
                    {bob}, {})
  {
    var k, st := SmallKeys(alice, regKey, ownerKey, slope), SmallStorage(userset, alice, bob);
    SmallConsistent(userset, alice, bob);
    assert IdsStored(k, st, userset);
    assert |{bob}| == 1;
  }

  /** Alice's operation is allocated; then she asks, Bob enrols and sends his part. */
  function SmallRun<X, P>(op: Uuid, userset: Uuid, alice: User, bob: User, ciphertext: X, part: P): seq<Event<X, P>> {
    [Prepare(op, alice, userset, ciphertext, 1, 0), Participate(op, bob, true), SendPart(op, part, 2, true)]
  }

  lemma SmallStart<X, P>(op: Uuid)
    ensures var sys: System<X, P> := Step(Initial(), New(op));
            Disjoint(sys) && ViewOf(sys, op) == View(None, None, [], [])
  {
  }

  lemma SmallPrepared<X, P>(op: Uuid, e: Event<X, P>, r: PrepareRecord<X>)
    requires e == Prepare(op, r.requester, r.userset, r.ciphertext, r.requiredOwners, r.requiredRegs)
    requires r.requiredOwners > 0 && r.owners == {} && r.regs == {}
    ensures var sys: System<X, P> := Step(Initial(), New(op));
            && AllowedRun(sys, [e]) && EventsOf(sys, [e], op) == [e]
            && Run(sys, [e]).manager == State(map[op := r], map[], {op})
  {
    var sys: System<X, P> := Step(Initial(), New(op));
    RunPush(sys, [], e, op);
    assert [] + [e] == [e];
  }

  lemma SmallEnrolled<X, P>(sys: System<X, P>, e: Event<X, P>, f: Event<X, P>, op: Uuid, r: PrepareRecord<X>, bob: User)
    requires AllowedRun(sys, [e]) && EventsOf(sys, [e], op) == [e] && f == Participate(op, bob, true)
    requires r.requiredOwners == 1 && r.requiredRegs == 0 && r.owners == {} && r.regs == {}
    requires Run(sys, [e]).manager == State(map[op := r], map[], {op})
    ensures AllowedRun(sys, [e, f]) && EventsOf(sys, [e, f], op) == [e, f]
    ensures op in Run(sys, [e, f]).manager.collected
  {
    SmallEnrolment<X, P>(op, r, bob);
    RunPush(sys, [e], f, op);
    assert [e] + [f] == [e, f];
  }

  lemma SmallRunAllowed<X, P>(op: Uuid, userset: Uuid, alice: User, bob: User, ciphertext: X, part: P)
    ensures var sys: System<X, P> := Step(Initial(), New(op));
            var es := SmallRun(op, userset, alice, bob, ciphertext, part);
            AllowedRun(sys, es) && EventsOf(sys, es, op) == es
  {
    var sys: System<X, P> := Step(Initial(), New(op));
    var e: Event<X, P>, f: Event<X, P> := Prepare(op, alice, userset, ciphertext, 1, 0), Participate(op, bob, true);
    var r: PrepareRecord<X> := PrepareRecord(alice, userset, ciphertext, 1, 0, {}, {});
    SmallPrepared(op, e, r);
    SmallEnrolled(sys, e, f, op, r, bob);
    RunPush(sys, [e, f], SendPart(op, part, 2, true), op);
    assert [e, f] + [SendPart(op, part, 2, true)] == SmallRun(op, userset, alice, bob, ciphertext, part);
  }

  lemma SmallEnrolment<X, P>(op: Uuid, r: PrepareRecord<X>, bob: User)
    requires r.requiredOwners == 1 && r.requiredRegs == 0 && r.owners == {} && r.regs == {}
    ensures !Enrolment(r, true).NotRequired?
    ensures var m: State<X, P> := State(map[op := r], map[], {op});
            op in AfterParticipant(m, op, bob, true).collected
  {
    assert Enrolled(r, bob, true).HasEnoughParticipants();
  }

  function Always<P>(part: P): User -> P { _ => part }

  lemma SmallPart<G(!new), C(!new)>(g: Group<G>, c: Ciphertext<G, C>, k: Keys, st: Storage, userset: Uuid,
                                    alice: User, bob: User) returns (part: G)
    requires Staffed(g.order, k, st, userset, alice, {bob}, {})
    ensures HelperPart(g, c, k, OwnerLayer, alice, [bob], bob) == Ok(part)
  {
    HelpersAccepted(g, c, k, st, userset, alice, {bob}, {}, OwnerLayer, [bob], bob);
    part := HelperPart(g, c, k, OwnerLayer, alice, [bob], bob).value;
  }

  lemma SmallLayers<G(!new), C(!new)>(g: Group<G>, c: Ciphertext<G, C>, k: Keys, alice: User, bob: User, part: G)
    requires g.order >= 2 && HelperPart(g, c, k, OwnerLayer, alice, [bob], bob) == Ok(part)
    ensures LayerParticipates(g, c, k, OwnerLayer, alice, [bob], {bob}, Always(part))
    ensures LayerParticipates(g, c, k, RegLayer, alice, [], {}, Always(part))
  {
  }

  lemma SmallEvents<X, P>(op: Uuid, userset: Uuid, alice: User, bob: User, ciphertext: X, part: P, id: User -> int)
    requires id(bob) == 2
    ensures SmallRun(op, userset, alice, bob, ciphertext, part)
         == [Prepare(op, alice, userset, ciphertext, 1, 0)] + Enrolments(op, [bob], {alice, bob})
            + Parts(op, ByHelpers([bob], Always(part)), {alice, bob}, id)
  {
  }

  lemma SmallPartaking<G(!new), C(!new)>(g: Group<G>, c: Ciphertext<G, C>, userset: Uuid, alice: User, bob: User,
                                         regKey: nat, ownerKey: nat, slope: nat)
    returns (part: G)
    requires g.order > MAX_MEMBERS && alice != bob && regKey < g.order && ownerKey < g.order
    ensures Partaking(g, c, SmallKeys(alice, regKey, ownerKey, slope), SmallStorage(userset, alice, bob), userset,
                      alice, {bob}, {}, [bob], [], Always(part))
  {
    var k, st := SmallKeys(alice, regKey, ownerKey, slope), SmallStorage(userset, alice, bob);
    SmallStaffed(g.order, userset, alice, bob, regKey, ownerKey, slope);
    part := SmallPart(g, c, k, st, userset, alice, bob);
    SmallLayers(g, c, k, alice, bob, part);
  }

  lemma SmallHelped<X, P>(op: Uuid, userset: Uuid, alice: User, bob: User, ciphertext: X, part: P, id: User -> int)
    requires id(bob) == 2
    ensures Helped(Step(Initial(), New(op)), SmallRun(op, userset, alice, bob, ciphertext, part), op, alice, userset,
                   ciphertext, UserSetInfo({alice, bob}, {}, 1, 0), {bob} + {}, [bob], [bob], Always(part), id)
  {
    SmallStart<X, P>(op);
    SmallRunAllowed(op, userset, alice, bob, ciphertext, part);
    SmallEvents(op, userset, alice, bob, ciphertext, part, id);
  }

  /**
   * Alice asks, Bob helps: with the owners' threshold 1 and the regular one 0, Bob's enrolment and part lead to a
   * finished record from which Alice gets her plaintext.
   */
  lemma OneHelper<G(!new), K(!new), M(!new), C(!new)>(
    s: Schema<G, K, M, C>, m: M, r1: nat, r2: nat, nonce: nat, userset: Uuid, op: Uuid, alice: User, bob: User,
    regKey: nat, ownerKey: nat, slope: nat)
    returns (part: G)
    requires ValidSchema(s) && s.group.order > MAX_MEMBERS && alice != bob
    requires regKey < s.group.order && ownerKey < s.group.order
    ensures var g, k := s.group, SmallKeys(alice, regKey, ownerKey, slope);
            var c := Encrypt(s, m, PublicKey(g, regKey), PublicKey(g, ownerKey), r1, r2, nonce);
            var sys: System<Ciphertext<G, C>, G> := Step(Initial(), New(op));
            var es := SmallRun(op, userset, alice, bob, c, part);
            AllowedRun(sys, es) && |ViewOf(Run(sys, es), op).completed| == 1
            && RequesterJoins(s, c, k, alice, FinishedOf(op, ViewOf(Run(sys, es), op).completed[0], 1)) == Ok(m)
  {
    var g, k, st := s.group, SmallKeys(alice, regKey, ownerKey, slope), SmallStorage(userset, alice, bob);
    var c := Encrypt(s, m, PublicKey(g, regKey), PublicKey(g, ownerKey), r1, r2, nonce);
    var sys: System<Ciphertext<G, C>, G> := Step(Initial(), New(op));
    part := SmallPartaking(g, c, userset, alice, bob, regKey, ownerKey, slope);
    SmallHelped(op, userset, alice, bob, c, part, k.id);
    ThresholdDecryption(s, m, r1, r2, nonce, c, k, st, userset, alice, {bob}, {}, sys,
                        SmallRun(op, userset, alice, bob, c, part), op, [bob], [bob], [], [bob], Always(part));
  }
}
