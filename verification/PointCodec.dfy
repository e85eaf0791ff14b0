/** Compressed points of a curve y^2 = x^3 + ax + b over an odd prime field. */
module PointCodec {
  import opened Numbers
  import opened Packets
  import opened ByteCodec

  const FIELD_SIZE: nat := 32
  const POINT_SIZE: nat := 33

  /** The curve, and the library's search for the y that an x and a parity belong to. */
  datatype Curve = Curve(p: int, a: int, b: int, recover: (nat, bool) -> Option<nat>)

  predicate OnCurve(c: Curve, x: nat, y: nat)
    requires c.p > 0
  {
    x < c.p && y < c.p && (y * y) % c.p == (x * x * x + c.a * x + c.b) % c.p
  }

  /** A field of at most 32 bytes, whose `recover` finds a y of the given parity whenever there is one. */
  ghost predicate ValidCurve(c: Curve) {
    && Prime(c.p) && c.p > 2 && c.p <= Power256(FIELD_SIZE)
    && forall x, odd: bool {:trigger Recovers(c, x, odd)} :: Recovers(c, x, odd)
  }

  ghost predicate Recovers(c: Curve, x: nat, odd: bool)
    requires c.p > 0
  {
    match c.recover(x, odd)
    case Some(y) => OnCurve(c, x, y) && (y % 2 == 1) == odd
    case None => forall y :: OnCurve(c, x, y) ==> (y % 2 == 1) != odd
  }

  predicate ValidPoint(c: Curve, q: Point)
    requires c.p > 0
  {
    q.Affine? ==> OnCurve(c, q.x, q.y)
  }

  /** Equal squares in a field come from equal or opposite values. */
  lemma SquareRoots(p: int, y: nat, z: nat)
    requires Prime(p) && y < p && z < p && (y * y) % p == (z * z) % p
    ensures y == z || y + z == p
  {
    ModsAgree(y * y, z * z, p);
    assert (y - z) * (y + z) == y * y - z * z;
    if !Divides(p, y - z) {
      DomainCancel(p, y - z, y + z);
      var k := DividesElim(p, y + z);
      SumOfTwo(p, k, y, z);
    } else {
      var k := DividesElim(p, y - z);
      SmallMultiple(p, k, y - z);
    }
  }

  lemma SumOfTwo(p: int, k: int, y: nat, z: nat)
    requires p > 0 && y < p && z < p && y + z == p * k
    ensures y + z == p || y == z
  {
    MulGrows(p, if k > 1 then k - 1 else 0);
    MulDistributes(p, k, 1);
  }

  /** An odd prime: the two points over one x differ in the parity of y. */
  lemma ParityDecides(c: Curve, x: nat, y: nat, z: nat)
    requires Prime(c.p) && c.p > 2 && OnCurve(c, x, y) && OnCurve(c, x, z) && y % 2 == z % 2
    ensures y == z
  {
    SquareRoots(c.p, y, z);
    OddPrime(c.p);
    SameParity(c.p, y, z);
  }

  lemma OddPrime(p: int)
    requires Prime(p) && p > 2
    ensures p % 2 == 1
  {
    DividesRemainder(2, p);
  }

  lemma SameParity(p: int, y: nat, z: nat)
    requires p % 2 == 1 && y % 2 == z % 2
    ensures y + z != p
  {
  }

  /** Prefix 2 or 3 for an even or odd y, then x in 32 bytes; the identity is 33 zero bytes. */
  function Encode(q: Point): (b: Bytes)
    ensures |b| == POINT_SIZE
  {
    match q
    case Identity => EncodeBE(0, POINT_SIZE)
    case Affine(x, y) => [if y % 2 == 1 then 3 else 2] + EncodeBE(x, FIELD_SIZE)
  }

  function Decode(c: Curve, b: Bytes): Option<Point> {
    if |b| != POINT_SIZE then None
    else if b[0] == 0 then Some(Identity)
    else if b[0] != 2 && b[0] != 3 then None
    else
      var x := DecodeBE(b[1..]);
      match c.recover(x, b[0] == 3)
      case None => None
      case Some(y) => Some(Affine(x, y))
  }

  /** The compressed form of SEC 1, section 2.3.3: the parity of y in the first byte, then x big-endian. */
  lemma CompressedForm(q: Point)
    requires q.Affine? && q.x < Power256(FIELD_SIZE)
    ensures Encode(q)[0] == 2 + q.y % 2 && DecodeBE(Encode(q)[1..]) == q.x
  {
    assert Encode(q)[1..] == EncodeBE(q.x, FIELD_SIZE);
    DecodeEncode(q.x, FIELD_SIZE);
  }

  lemma ZeroBytes(n: nat)
    requires n > 0
    ensures EncodeBE(0, n)[0] == 0
  {
  }

  /** Decoding undoes encoding for the identity and every point of the curve. */
  lemma DecodeEncodePoint(c: Curve, q: Point)
    requires ValidCurve(c) && ValidPoint(c, q)
    ensures Decode(c, Encode(q)) == Some(q)
  {
    match q {
      case Identity =>
        ZeroBytes(POINT_SIZE);
      case Affine(x, y) =>
        assert Encode(q)[1..] == EncodeBE(x, FIELD_SIZE);
        DecodeEncode(x, FIELD_SIZE);
        var odd := y % 2 == 1;
        assert Recovers(c, x, odd);
        var found := c.recover(x, odd);
        if found.Some? {
          ParityDecides(c, x, y, found.value);
        }
    }
  }

  /** Hence no two points of the curve, the identity included, are encoded alike. */
  lemma EncodeInjective(c: Curve, q: Point, r: Point)
    requires ValidCurve(c) && ValidPoint(c, q) && ValidPoint(c, r) && Encode(q) == Encode(r)
    ensures q == r
  {
    DecodeEncodePoint(c, q);
    DecodeEncodePoint(c, r);
  }
}
