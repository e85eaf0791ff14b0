/** The bodies of packets: points, shards, ciphertexts, update records and member lists. */
module PacketCodec {
  import opened Packets
  import opened ByteCodec
  import opened Shamir
  import opened ElGamal

  /** The symmetric ciphertext is a pair of byte blobs. */
  type Sealed = (Bytes, Bytes)

  type Update = UpdateResponse<Point, Sealed>

  // -------------------------------------------------------------------- elements

  /** An absent x stands for the identity, and then no y follows. */
  function PointBytes(p: Point): Bytes {
    match p
    case Identity => BigIntBytes(None)
    case Affine(x, y) => BigIntBytes(Some(x)) + BigIntBytes(Some(y))
  }

  function ReadPoint(b: Bytes): Option<(Point, Bytes)> {
    match ReadBigInt(b)
    case None => None
    case Some((None, rest)) => Some((Identity, rest))
    case Some((Some(x), rest)) =>
      match ReadBigInt(rest)
      case Some((Some(y), rest)) => Some((Affine(x, y), rest))
      case _ => None
  }

  predicate NatFits(v: nat) { MinSize(v) < SIZE_LIMIT }

  predicate PointFits(p: Point) { p.Affine? ==> NatFits(p.x) && NatFits(p.y) }

  lemma PointReadsBack(p: Point, rest: Bytes)
    requires PointFits(p)
    ensures ReadPoint(PointBytes(p) + rest) == Some((p, rest))
  {
    match p {
      case Identity =>
        BigIntReadsBack(None, rest);
      case Affine(x, y) =>
        Regroup(BigIntBytes(Some(x)), BigIntBytes(Some(y)), rest);
        BigIntReadsBack(Some(x), BigIntBytes(Some(y)) + rest);
        BigIntReadsBack(Some(y), rest);
    }
  }

  /** Shard IDs are positive; a negative number would have no unsigned encoding. */
  function NatOf(id: int): nat { if id < 0 then 0 else id }

  function IdBytes(id: int): Bytes { BigIntBytes(Some(NatOf(id))) }

  function ReadId(b: Bytes): Option<(int, Bytes)> {
    match ReadBigInt(b)
    case Some((Some(id), rest)) => Some((id, rest))
    case _ => None
  }

  predicate IdFits(id: int) { id >= 0 && NatFits(id) }

  lemma IdReadsBack(id: int, rest: Bytes)
    requires IdFits(id)
    ensures ReadId(IdBytes(id) + rest) == Some((id, rest))
  {
    BigIntReadsBack(Some(NatOf(id)), rest);
  }

  function ShardBytes(s: Shard): Bytes { IdBytes(s.id) + BigIntBytes(Some(s.value)) }

  function ReadShard(b: Bytes): Option<(Shard, Bytes)> {
    match ReadId(b)
    case None => None
    case Some((id, rest)) =>
      match ReadBigInt(rest)
      case Some((Some(value), rest)) => Some((Shard(id, value), rest))
      case _ => None
  }

  predicate ShardFits(s: Shard) { IdFits(s.id) && NatFits(s.value) }

  lemma ShardReadsBack(s: Shard, rest: Bytes)
    requires ShardFits(s)
    ensures ReadShard(ShardBytes(s) + rest) == Some((s, rest))
  {
    Regroup(IdBytes(s.id), BigIntBytes(Some(s.value)), rest);
    IdReadsBack(s.id, BigIntBytes(Some(s.value)) + rest);
    BigIntReadsBack(Some(s.value), rest);
  }

  function UuidBytes(u: Uuid): Bytes { u }

  function ReadUuid(b: Bytes): Option<(Uuid, Bytes)> {
    if |b| < 16 then None else Some((b[..16], b[16..]))
  }

  lemma UuidReadsBack(u: Uuid, rest: Bytes)
    ensures ReadUuid(UuidBytes(u) + rest) == Some((u, rest))
  {
    BlobReadsBack(u, rest);
  }

  function SealedBytes(c: Sealed): Bytes { SizeBytes(|c.0|) + (SizeBytes(|c.1|) + (c.0 + c.1)) }

  function CiphertextBytes(c: Ciphertext<Point, Sealed>): Bytes {
    PointBytes(c.c1) + (PointBytes(c.c2) + SealedBytes(c.c3))
  }

  function ReadCiphertext(b: Bytes): Option<(Ciphertext<Point, Sealed>, Bytes)> {
    match ReadPoint(b)
    case None => None
    case Some((c1, rest)) =>
      match ReadPoint(rest)
      case None => None
      case Some((c2, rest)) =>
        match ReadSealed(rest)
        case None => None
        case Some((c3, rest)) => Some((Ciphertext(c1, c2, c3), rest))
  }

  function ReadSealed(b: Bytes): Option<(Sealed, Bytes)> {
    match ReadSize(b)
    case None => None
    case Some((m, rest)) =>
      match ReadSize(rest)
      case None => None
      case Some((n, rest)) =>
        match ReadBlob(rest, m)
        case None => None
        case Some((x, rest)) =>
          match ReadBlob(rest, n)
          case None => None
          case Some((y, rest)) => Some(((x, y), rest))
  }

  predicate CiphertextFits(c: Ciphertext<Point, Sealed>) {
    PointFits(c.c1) && PointFits(c.c2) && |c.c3.0| < SIZE_LIMIT && |c.c3.1| < SIZE_LIMIT
  }

  lemma SealedReadsBack(c: Sealed, rest: Bytes)
    requires |c.0| < SIZE_LIMIT && |c.1| < SIZE_LIMIT
    ensures ReadSealed(SealedBytes(c) + rest) == Some((c, rest))
  {
    Regroup(SizeBytes(|c.0|), SizeBytes(|c.1|) + (c.0 + c.1), rest);
    Regroup(SizeBytes(|c.1|), c.0 + c.1, rest);
    Regroup(c.0, c.1, rest);
    FixedReadsBack(|c.0|, 8, SizeBytes(|c.1|) + (c.0 + (c.1 + rest)));
    FixedReadsBack(|c.1|, 8, c.0 + (c.1 + rest));
    BlobReadsBack(c.0, c.1 + rest);
    BlobReadsBack(c.1, rest);
  }

  lemma CiphertextReadsBack(c: Ciphertext<Point, Sealed>, rest: Bytes)
    requires CiphertextFits(c)
    ensures ReadCiphertext(CiphertextBytes(c) + rest) == Some((c, rest))
  {
    Regroup(PointBytes(c.c1), PointBytes(c.c2) + SealedBytes(c.c3), rest);
    Regroup(PointBytes(c.c2), SealedBytes(c.c3), rest);
    PointReadsBack(c.c1, PointBytes(c.c2) + (SealedBytes(c.c3) + rest));
    PointReadsBack(c.c2, SealedBytes(c.c3) + rest);
    SealedReadsBack(c.c3, rest);
  }

  // -------------------------------------------------------------- update records

  function MemberBytes(r: MemberRecord<Point>): Bytes {
    UuidBytes(r.userset) + (PointBytes(r.regKey) + (PointBytes(r.ownerKey) + ShardBytes(r.regShard)))
  }

  function ReadMember(b: Bytes): Option<(MemberRecord<Point>, Bytes)> {
    match ReadUuid(b)
    case None => None
    case Some((userset, rest)) =>
      match ReadPoint(rest)
      case None => None
      case Some((regKey, rest)) =>
        match ReadPoint(rest)
        case None => None
        case Some((ownerKey, rest)) =>
          match ReadShard(rest)
          case None => None
          case Some((shard, rest)) => Some((MemberRecord(userset, regKey, ownerKey, shard), rest))
  }

  predicate MemberFits(r: MemberRecord<Point>) {
    PointFits(r.regKey) && PointFits(r.ownerKey) && ShardFits(r.regShard)
  }

  lemma MemberReadsBack(r: MemberRecord<Point>, rest: Bytes)
    requires MemberFits(r)
    ensures ReadMember(MemberBytes(r) + rest) == Some((r, rest))
  {
    var a, b, c, d := UuidBytes(r.userset), PointBytes(r.regKey), PointBytes(r.ownerKey), ShardBytes(r.regShard);
    Regroup(a, b + (c + d), rest);
    Regroup(b, c + d, rest);
    Regroup(c, d, rest);
    UuidReadsBack(r.userset, b + (c + (d + rest)));
    PointReadsBack(r.regKey, c + (d + rest));
    PointReadsBack(r.ownerKey, d + rest);
    ShardReadsBack(r.regShard, rest);
  }

  /** An owner's record is a member's record with the owner-layer shard behind it. */
  function OwnerBytes(r: OwnerRecord<Point>): Bytes { MemberBytes(r.member) + ShardBytes(r.ownerShard) }

  function ReadOwner(b: Bytes): Option<(OwnerRecord<Point>, Bytes)> {
    match ReadMember(b)
    case None => None
    case Some((member, rest)) =>
      match ReadShard(rest)
      case None => None
      case Some((shard, rest)) => Some((OwnerRecord(member, shard), rest))
  }

  predicate OwnerFits(r: OwnerRecord<Point>) { MemberFits(r.member) && ShardFits(r.ownerShard) }

  lemma OwnerReadsBack(r: OwnerRecord<Point>, rest: Bytes)
    requires OwnerFits(r)
    ensures ReadOwner(OwnerBytes(r) + rest) == Some((r, rest))
  {
    Regroup(MemberBytes(r.member), ShardBytes(r.ownerShard), rest);
    MemberReadsBack(r.member, ShardBytes(r.ownerShard) + rest);
    ShardReadsBack(r.ownerShard, rest);
  }

  function ToDecryptBytes(r: ToDecryptRecord<Point, Sealed>): Bytes {
    UuidBytes(r.op) + (CiphertextBytes(r.ciphertext) + (CountBytes(|r.ids|) + ListBytes(IdBytes, r.ids)))
  }

  function ReadToDecrypt(b: Bytes): (r: Option<(ToDecryptRecord<Point, Sealed>, Bytes)>)
    ensures r.Some? ==> ToDecryptCounted(r.value.0)
  {
    match ReadUuid(b)
    case None => None
    case Some((op, rest)) =>
      match ReadCiphertext(rest)
      case None => None
      case Some((ciphertext, rest)) =>
        match ReadCount(rest)
        case None => None
        case Some((n, rest)) =>
          match ReadList(ReadId, n, rest)
          case None => None
          case Some((ids, rest)) => Some((ToDecryptRecord(op, ciphertext, ids), rest))
  }

  predicate ToDecryptCounted(r: ToDecryptRecord<Point, Sealed>) { |r.ids| < 256 }

  predicate ToDecryptFits(r: ToDecryptRecord<Point, Sealed>) {
    CiphertextFits(r.ciphertext) && forall id :: id in r.ids ==> IdFits(id)
  }

  lemma ToDecryptReadsBack(r: ToDecryptRecord<Point, Sealed>, rest: Bytes)
    requires ToDecryptFits(r) && ToDecryptCounted(r)
    ensures ReadToDecrypt(ToDecryptBytes(r) + rest) == Some((r, rest))
  {
    var a, b, c, d := UuidBytes(r.op), CiphertextBytes(r.ciphertext), CountBytes(|r.ids|), ListBytes(IdBytes, r.ids);
    Regroup(a, b + (c + d), rest);
    Regroup(b, c + d, rest);
    Regroup(c, d, rest);
    UuidReadsBack(r.op, b + (c + (d + rest)));
    CiphertextReadsBack(r.ciphertext, c + (d + rest));
    CountReadsBack(|r.ids|, d + rest);
    IdsReadBack(r.ids, rest);
  }

  /** Only the parts are counted: each list of IDs is taken to be one longer than its list of parts. */
  function FinishedBytes(r: FinishedRecord<Point>): Bytes {
    CountBytes(|r.regParts|) + (CountBytes(|r.ownerParts|) + (UuidBytes(r.op) + PartsAndIdsBytes(r)))
  }

  function PartsAndIdsBytes(r: FinishedRecord<Point>): Bytes {
    ListBytes(PointBytes, r.regParts) + (ListBytes(PointBytes, r.ownerParts) +
      (ListBytes(IdBytes, r.regIds) + ListBytes(IdBytes, r.ownerIds)))
  }

  function ReadFinished(b: Bytes): (r: Option<(FinishedRecord<Point>, Bytes)>)
    ensures r.Some? ==> FinishedCounted(r.value.0)
  {
    match ReadCount(b)
    case None => None
    case Some((regs, rest)) =>
      match ReadCount(rest)
      case None => None
      case Some((owners, rest)) =>
        match ReadUuid(rest)
        case None => None
        case Some((op, rest)) => ReadPartsAndIds(op, regs, owners, rest)
  }

  function ReadPartsAndIds(op: Uuid, regs: nat, owners: nat, b: Bytes): (r: Option<(FinishedRecord<Point>, Bytes)>)
    ensures r.Some? ==> var f := r.value.0; |f.regParts| == regs && |f.ownerParts| == owners
                                            && |f.regIds| == regs + 1 && |f.ownerIds| == owners + 1
  {
    match ReadList(ReadPoint, regs, b)
    case None => None
    case Some((regParts, rest)) =>
      match ReadList(ReadPoint, owners, rest)
      case None => None
      case Some((ownerParts, rest)) =>
        match ReadList(ReadId, regs + 1, rest)
        case None => None
        case Some((regIds, rest)) =>
          match ReadList(ReadId, owners + 1, rest)
          case None => None
          case Some((ownerIds, rest)) => Some((FinishedRecord(op, regParts, ownerParts, regIds, ownerIds), rest))
  }

  predicate FinishedCounted(r: FinishedRecord<Point>) {
    && |r.regParts| < 256 && |r.ownerParts| < 256
    && |r.regIds| == |r.regParts| + 1 && |r.ownerIds| == |r.ownerParts| + 1
  }

  predicate FinishedFits(r: FinishedRecord<Point>) {
    && (forall p :: p in r.regParts ==> PointFits(p)) && (forall p :: p in r.ownerParts ==> PointFits(p))
    && (forall id :: id in r.regIds ==> IdFits(id)) && (forall id :: id in r.ownerIds ==> IdFits(id))
  }

  lemma PartsReadBack(parts: seq<Point>, rest: Bytes)
    requires forall p :: p in parts ==> PointFits(p)
    ensures ReadList(ReadPoint, |parts|, ListBytes(PointBytes, parts) + rest) == Some((parts, rest))
  {
    forall p, tail | p in parts ensures ReadPoint(PointBytes(p) + tail) == Some((p, tail)) {
      PointReadsBack(p, tail);
    }
    ListReadsBack(PointBytes, ReadPoint, parts, rest);
  }

  lemma IdsReadBack(ids: seq<int>, rest: Bytes)
    requires forall id :: id in ids ==> IdFits(id)
    ensures ReadList(ReadId, |ids|, ListBytes(IdBytes, ids) + rest) == Some((ids, rest))
  {
    forall id, tail | id in ids ensures ReadId(IdBytes(id) + tail) == Some((id, tail)) {
      IdReadsBack(id, tail);
    }
    ListReadsBack(IdBytes, ReadId, ids, rest);
  }

  lemma PartsAndIdsReadBack(r: FinishedRecord<Point>, rest: Bytes)
    requires FinishedFits(r) && FinishedCounted(r)
    ensures ReadPartsAndIds(r.op, |r.regParts|, |r.ownerParts|, PartsAndIdsBytes(r) + rest) == Some((r, rest))
  {
    var a, b, c, d := ListBytes(PointBytes, r.regParts), ListBytes(PointBytes, r.ownerParts),
                      ListBytes(IdBytes, r.regIds), ListBytes(IdBytes, r.ownerIds);
    Regroup(a, b + (c + d), rest);
    Regroup(b, c + d, rest);
    Regroup(c, d, rest);
    PartsReadBack(r.regParts, b + (c + (d + rest)));
    PartsReadBack(r.ownerParts, c + (d + rest));
    IdsReadBack(r.regIds, d + rest);
    IdsReadBack(r.ownerIds, rest);
  }

  lemma FinishedReadsBack(r: FinishedRecord<Point>, rest: Bytes)
    requires FinishedFits(r) && FinishedCounted(r)
    ensures ReadFinished(FinishedBytes(r) + rest) == Some((r, rest))
  {
    var a, b, c, d := CountBytes(|r.regParts|), CountBytes(|r.ownerParts|), UuidBytes(r.op), PartsAndIdsBytes(r);
    Regroup(a, b + (c + d), rest);
    Regroup(b, c + d, rest);
    Regroup(c, d, rest);
    CountReadsBack(|r.regParts|, b + (c + (d + rest)));
    CountReadsBack(|r.ownerParts|, c + (d + rest));
    UuidReadsBack(r.op, d + rest);
    PartsAndIdsReadBack(r, rest);
  }

  // ------------------------------------------------------------- update response

  /** The five counts come first, then the five lists, owners' records before members'. */
  function UpdateBytes(u: Update): Bytes {
    CountsBytes(u) + UpdateLists(u)
  }

  function CountsBytes(u: Update): (b: Bytes)
    ensures |b| == 5
  {
    [|u.addedAsOwner| % 256, |u.addedAsMember| % 256, |u.onLookup| % 256, |u.toDecrypt| % 256, |u.finished| % 256]
  }

  function UpdateLists(u: Update): Bytes {
    ListBytes(OwnerBytes, u.addedAsOwner) + (ListBytes(MemberBytes, u.addedAsMember) +
      (ListBytes(UuidBytes, u.onLookup) + DecryptionsBytes(u)))
  }

  function DecryptionsBytes(u: Update): Bytes {
    ListBytes(ToDecryptBytes, u.toDecrypt) + ListBytes(FinishedBytes, u.finished)
  }

  /** The counts and the lists stand in this order, which is not the order of the fields. */
  lemma UpdateLayout(u: Update)
    ensures UpdateBytes(u) == CountsBytes(u) + (
              ListBytes(OwnerBytes, u.addedAsOwner) + ListBytes(MemberBytes, u.addedAsMember)
              + ListBytes(UuidBytes, u.onLookup) + ListBytes(ToDecryptBytes, u.toDecrypt)
              + ListBytes(FinishedBytes, u.finished))
    ensures CountsBytes(u) == [|u.addedAsOwner| % 256, |u.addedAsMember| % 256, |u.onLookup| % 256,
                               |u.toDecrypt| % 256, |u.finished| % 256]
  {
    FiveInARow(ListBytes(OwnerBytes, u.addedAsOwner), ListBytes(MemberBytes, u.addedAsMember),
               ListBytes(UuidBytes, u.onLookup), ListBytes(ToDecryptBytes, u.toDecrypt),
               ListBytes(FinishedBytes, u.finished));
  }

  lemma FiveInARow(a: Bytes, b: Bytes, c: Bytes, d: Bytes, e: Bytes)
    ensures a + (b + (c + (d + e))) == a + b + c + d + e
  {
    Regroup(a, b, c + (d + e));
    Regroup(a + b, c, d + e);
    Regroup(a + b + c, d, e);
  }

  function ReadUpdate(b: Bytes): Option<(Update, Bytes)> {
    if |b| < 5 then None else ReadUpdateLists(b[0], b[1], b[2], b[3], b[4], b[5..])
  }

  function ReadUpdateLists(owners: nat, members: nat, lookups: nat, pending: nat, results: nat, b: Bytes)
    : Option<(Update, Bytes)>
  {
    match ReadList(ReadOwner, owners, b)
    case None => None
    case Some((addedAsOwner, rest)) =>
      match ReadList(ReadMember, members, rest)
      case None => None
      case Some((addedAsMember, rest)) =>
        match ReadList(ReadUuid, lookups, rest)
        case None => None
        case Some((onLookup, rest)) =>
          match ReadDecryptions(pending, results, rest)
          case None => None
          case Some(((toDecrypt, finished), rest)) =>
            Some((UpdateResponse(addedAsMember, addedAsOwner, onLookup, toDecrypt, finished), rest))
  }

  function ReadDecryptions(pending: nat, results: nat, b: Bytes)
    : Option<((seq<ToDecryptRecord<Point, Sealed>>, seq<FinishedRecord<Point>>), Bytes)>
  {
    match ReadList(ReadToDecrypt, pending, b)
    case None => None
    case Some((toDecrypt, rest)) =>
      match ReadList(ReadFinished, results, rest)
      case None => None
      case Some((finished, rest)) => Some(((toDecrypt, finished), rest))
  }

  /** All big integers and blobs have sizes that 64 bits can tell. */
  ghost predicate UpdateFits(u: Update) {
    && (forall r :: r in u.addedAsOwner ==> OwnerFits(r)) && (forall r :: r in u.addedAsMember ==> MemberFits(r))
    && (forall r :: r in u.toDecrypt ==> ToDecryptFits(r)) && (forall r :: r in u.finished ==> FinishedFits(r))
  }

  /** Every counted list has at most 255 entries, and every list of IDs is one longer than its list of parts. */
  ghost predicate UpdateCounted(u: Update) {
    && |u.addedAsOwner| < 256 && |u.addedAsMember| < 256 && |u.onLookup| < 256
    && |u.toDecrypt| < 256 && |u.finished| < 256
    && (forall i :: 0 <= i < |u.toDecrypt| ==> ToDecryptCounted(u.toDecrypt[i]))
    && (forall i :: 0 <= i < |u.finished| ==> FinishedCounted(u.finished[i]))
  }

  lemma OwnersReadBack(xs: seq<OwnerRecord<Point>>, rest: Bytes)
    requires forall r :: r in xs ==> OwnerFits(r)
    ensures ReadList(ReadOwner, |xs|, ListBytes(OwnerBytes, xs) + rest) == Some((xs, rest))
  {
    forall r, tail | r in xs ensures ReadOwner(OwnerBytes(r) + tail) == Some((r, tail)) {
      OwnerReadsBack(r, tail);
    }
    ListReadsBack(OwnerBytes, ReadOwner, xs, rest);
  }

  lemma MembersReadBack(xs: seq<MemberRecord<Point>>, rest: Bytes)
    requires forall r :: r in xs ==> MemberFits(r)
    ensures ReadList(ReadMember, |xs|, ListBytes(MemberBytes, xs) + rest) == Some((xs, rest))
  {
    forall r, tail | r in xs ensures ReadMember(MemberBytes(r) + tail) == Some((r, tail)) {
      MemberReadsBack(r, tail);
    }
    ListReadsBack(MemberBytes, ReadMember, xs, rest);
  }

  lemma LookupsReadBack(xs: seq<Uuid>, rest: Bytes)
    ensures ReadList(ReadUuid, |xs|, ListBytes(UuidBytes, xs) + rest) == Some((xs, rest))
  {
    forall r: Uuid, tail | r in xs ensures ReadUuid(UuidBytes(r) + tail) == Some((r, tail)) {
      UuidReadsBack(r, tail);
    }
    ListReadsBack(UuidBytes, ReadUuid, xs, rest);
  }

  lemma PendingReadBack(xs: seq<ToDecryptRecord<Point, Sealed>>, rest: Bytes)
    requires forall r :: r in xs ==> ToDecryptFits(r) && ToDecryptCounted(r)
    ensures ReadList(ReadToDecrypt, |xs|, ListBytes(ToDecryptBytes, xs) + rest) == Some((xs, rest))
  {
    forall r, tail | r in xs ensures ReadToDecrypt(ToDecryptBytes(r) + tail) == Some((r, tail)) {
      ToDecryptReadsBack(r, tail);
    }
    ListReadsBack(ToDecryptBytes, ReadToDecrypt, xs, rest);
  }

  lemma ResultsReadBack(xs: seq<FinishedRecord<Point>>, rest: Bytes)
    requires forall r :: r in xs ==> FinishedFits(r) && FinishedCounted(r)
    ensures ReadList(ReadFinished, |xs|, ListBytes(FinishedBytes, xs) + rest) == Some((xs, rest))
  {
    forall r, tail | r in xs ensures ReadFinished(FinishedBytes(r) + tail) == Some((r, tail)) {
      FinishedReadsBack(r, tail);
    }
    ListReadsBack(FinishedBytes, ReadFinished, xs, rest);
  }

  lemma DecryptionsReadBack(u: Update)
    requires UpdateFits(u) && UpdateCounted(u)
    ensures ReadDecryptions(|u.toDecrypt|, |u.finished|, DecryptionsBytes(u)) == Some(((u.toDecrypt, u.finished), []))
  {
    var e := ListBytes(FinishedBytes, u.finished);
    PendingReadBack(u.toDecrypt, e);
    ResultsReadBack(u.finished, []);
    assert e + [] == e;
  }

  lemma ListsReadBack(u: Update)
    requires UpdateFits(u) && UpdateCounted(u)
    ensures ReadUpdateLists(|u.addedAsOwner|, |u.addedAsMember|, |u.onLookup|, |u.toDecrypt|, |u.finished|,
                            UpdateLists(u))
         == Some((u, []))
  {
    var c, d := ListBytes(UuidBytes, u.onLookup), DecryptionsBytes(u);
    OwnersReadBack(u.addedAsOwner, ListBytes(MemberBytes, u.addedAsMember) + (c + d));
    MembersReadBack(u.addedAsMember, c + d);
    LookupsReadBack(u.onLookup, d);
    DecryptionsReadBack(u);
  }

  lemma CountsRead(u: Update)
    ensures var k := CountsBytes(u);
            ReadUpdate(UpdateBytes(u)) == ReadUpdateLists(k[0], k[1], k[2], k[3], k[4], UpdateLists(u))
  {
    assert UpdateBytes(u)[5..] == UpdateLists(u);
  }

  lemma ReadDecryptionsCounted(pending: nat, results: nat, b: Bytes)
    ensures var r := ReadDecryptions(pending, results, b);
            r.Some? ==> && |r.value.0.0| == pending && |r.value.0.1| == results
                        && (forall i :: 0 <= i < pending ==> ToDecryptCounted(r.value.0.0[i]))
                        && (forall i :: 0 <= i < results ==> FinishedCounted(r.value.0.1[i]))
  {
    var first := ReadList(ReadToDecrypt, pending, b);
    if first.Some? {
      ListElements(ReadToDecrypt, pending, b, ToDecryptCounted);
      ListElements(ReadFinished, results, first.value.1, FinishedCounted);
    }
  }

  lemma ReadListsCounted(owners: byte, members: byte, lookups: byte, pending: byte, results: byte, b: Bytes)
    ensures var r := ReadUpdateLists(owners, members, lookups, pending, results, b);
            r.Some? ==> UpdateCounted(r.value.0)
  {
    var first := ReadList(ReadOwner, owners, b);
    if first.Some? {
      var second := ReadList(ReadMember, members, first.value.1);
      if second.Some? {
        var third := ReadList(ReadUuid, lookups, second.value.1);
        if third.Some? {
          ReadDecryptionsCounted(pending, results, third.value.1);
        }
      }
    }
  }

  /** Whatever bytes a response is read from, its lists are as long as counts can tell. */
  lemma ReadIsCounted(b: Bytes)
    ensures ReadUpdate(b).Some? ==> UpdateCounted(ReadUpdate(b).value.0)
  {
    if |b| >= 5 {
      ReadListsCounted(b[0], b[1], b[2], b[3], b[4], b[5..]);
    }
  }

  /**
   * A response survives the wire, and is read to the very end of the buffer, exactly when its lists are within
   * the counts: at most 255 entries each, and one more shard ID than parts in every layer of a finished record.
   */
  lemma UpdateRoundTrip(u: Update)
    requires UpdateFits(u)
    ensures ReadUpdate(UpdateBytes(u)) == Some((u, [])) <==> UpdateCounted(u)
  {
    if UpdateCounted(u) {
      CountedReadsBack(u);
    } else {
      ReadIsCounted(UpdateBytes(u));
    }
  }

  lemma CountedReadsBack(u: Update)
    requires UpdateFits(u) && UpdateCounted(u)
    ensures ReadUpdate(UpdateBytes(u)) == Some((u, []))
  {
    CountsRead(u);
    CountsExact(u);
    ListsReadBack(u);
  }

  lemma CountsExact(u: Update)
    requires UpdateCounted(u)
    ensures CountsBytes(u) == [|u.addedAsOwner|, |u.addedAsMember|, |u.onLookup|, |u.toDecrypt|, |u.finished|]
  {
  }

  method SendUpdate(packet: Update) returns (data: Bytes)
    ensures data == UpdateBytes(packet)
  {
    var out := new Buffer();
    out.Write(CountBytes(|packet.addedAsOwner|));
    out.Write(CountBytes(|packet.addedAsMember|));
    out.Write(CountBytes(|packet.onLookup|));
    out.Write(CountBytes(|packet.toDecrypt|));
    out.Write(CountBytes(|packet.finished|));
    assert out.data == CountsBytes(packet);
    out.WriteList(OwnerBytes, packet.addedAsOwner);
    out.WriteList(MemberBytes, packet.addedAsMember);
    out.WriteList(UuidBytes, packet.onLookup);
    out.WriteList(ToDecryptBytes, packet.toDecrypt);
    out.WriteList(FinishedBytes, packet.finished);
    data := out.data;
    LeftNested(CountsBytes(packet), ListBytes(OwnerBytes, packet.addedAsOwner),
               ListBytes(MemberBytes, packet.addedAsMember),
               ListBytes(UuidBytes, packet.onLookup), ListBytes(ToDecryptBytes, packet.toDecrypt),
               ListBytes(FinishedBytes, packet.finished));
  }

  lemma LeftNested(h: Bytes, a: Bytes, b: Bytes, c: Bytes, d: Bytes, e: Bytes)
    ensures ((((h + a) + b) + c) + d) + e == h + (a + (b + (c + (d + e))))
  {
    Regroup(h, a, b + (c + (d + e)));
    Regroup(h + a, b, c + (d + e));
    Regroup((h + a) + b, c, d + e);
    Regroup(((h + a) + b) + c, d, e);
  }

  method ReceiveUpdate(data: Bytes) returns (r: Option<(Update, Bytes)>)
    ensures r == ReadUpdate(data)
  {
    if |data| < 5 {
      return None;
    }
    var owners := FillList(ReadOwner, data[0], data[5..]);
    if owners.None? { return None; }
    var members := FillList(ReadMember, data[1], owners.value.1);
    if members.None? { return None; }
    var lookups := FillList(ReadUuid, data[2], members.value.1);
    if lookups.None? { return None; }
    var pending := FillList(ReadToDecrypt, data[3], lookups.value.1);
    if pending.None? { return None; }
    var results := FillList(ReadFinished, data[4], pending.value.1);
    if results.None? { return None; }
    return Some((UpdateResponse(members.value.0, owners.value.0, lookups.value.0, pending.value.0, results.value.0),
                 results.value.1));
  }

  // ------------------------------------------------------------------ name lists

  /** A request for a userset; a response listing members is its last four fields alone. */
  datatype UsersetRequest = UsersetRequest(ownersThreshold: byte, regsThreshold: byte, owners: seq<Bytes>,
                                           regs: seq<Bytes>)

  function NamesBytes(owners: seq<Bytes>, regs: seq<Bytes>): Bytes {
    [|owners| % 256, |regs| % 256] + (ListBytes(StringBytes, owners) + ListBytes(StringBytes, regs))
  }

  function ReadNames(b: Bytes): Option<((seq<Bytes>, seq<Bytes>), Bytes)> {
    if |b| < 2 then None else ReadNameLists(b[0], b[1], b[2..])
  }

  function ReadNameLists(owners: nat, regs: nat, b: Bytes): Option<((seq<Bytes>, seq<Bytes>), Bytes)> {
    match ReadList(ReadString, owners, b)
    case None => None
    case Some((ownerNames, rest)) =>
      match ReadList(ReadString, regs, rest)
      case None => None
      case Some((regNames, rest)) => Some(((ownerNames, regNames), rest))
  }

  predicate ZeroFree(s: Bytes) { 0 !in s }

  predicate NamesFit(owners: seq<Bytes>, regs: seq<Bytes>) {
    && |owners| < 256 && |regs| < 256
    && (forall i :: 0 <= i < |owners| ==> ZeroFree(owners[i])) && (forall i :: 0 <= i < |regs| ==> ZeroFree(regs[i]))
  }

  lemma StringsReadBack(xs: seq<Bytes>, rest: Bytes)
    requires forall i :: 0 <= i < |xs| ==> ZeroFree(xs[i])
    ensures ReadList(ReadString, |xs|, ListBytes(StringBytes, xs) + rest) == Some((xs, rest))
  {
    forall x, tail | x in xs ensures ReadString(StringBytes(x) + tail) == Some((x, tail)) {
      StringReadsBack(x, tail);
    }
    ListReadsBack(StringBytes, ReadString, xs, rest);
  }

  lemma ReadNamesFit(b: Bytes)
    ensures ReadNames(b).Some? ==> NamesFit(ReadNames(b).value.0.0, ReadNames(b).value.0.1)
  {
    forall c: Bytes ensures ReadString(c).Some? ==> ZeroFree(ReadString(c).value.0) {
    }
    if ReadNames(b).Some? {
      var rest := ReadList(ReadString, b[0], b[2..]).value.1;
      ListElements(ReadString, b[0], b[2..], ZeroFree);
      ListElements(ReadString, b[1], rest, ZeroFree);
      var (owners, regs) := ReadNames(b).value.0;
      assert regs == ReadList(ReadString, b[1], rest).value.0;
    }
  }

  /** Lists of names survive exactly when they have at most 255 entries and no name holds a zero byte. */
  lemma NamesRoundTrip(owners: seq<Bytes>, regs: seq<Bytes>)
    ensures ReadNames(NamesBytes(owners, regs)) == Some(((owners, regs), [])) <==> NamesFit(owners, regs)
  {
    var b := NamesBytes(owners, regs);
    if NamesFit(owners, regs) {
      NamesReadBack(owners, regs);
    } else {
      ReadNamesFit(b);
    }
  }

  lemma NamesReadBack(owners: seq<Bytes>, regs: seq<Bytes>)
    requires NamesFit(owners, regs)
    ensures ReadNames(NamesBytes(owners, regs)) == Some(((owners, regs), []))
  {
    var a, b := ListBytes(StringBytes, owners), ListBytes(StringBytes, regs);
    assert NamesBytes(owners, regs)[2..] == a + b;
    NameListsReadBack(owners, regs);
  }

  lemma NameListsReadBack(owners: seq<Bytes>, regs: seq<Bytes>)
    requires NamesFit(owners, regs)
    ensures ReadNameLists(|owners|, |regs|, ListBytes(StringBytes, owners) + ListBytes(StringBytes, regs))
         == Some(((owners, regs), []))
  {
    StringsReadBack(owners, ListBytes(StringBytes, regs));
    StringsReadBack(regs, []);
    assert ListBytes(StringBytes, regs) + [] == ListBytes(StringBytes, regs);
  }

  function RequestBytes(r: UsersetRequest): Bytes {
    [r.ownersThreshold, r.regsThreshold] + NamesBytes(r.owners, r.regs)
  }

  function ReadRequest(b: Bytes): Option<(UsersetRequest, Bytes)> {
    if |b| < 2 then None
    else match ReadNames(b[2..])
      case None => None
      case Some(((owners, regs), rest)) => Some((UsersetRequest(b[0], b[1], owners, regs), rest))
  }

  lemma RequestRoundTrip(r: UsersetRequest)
    ensures ReadRequest(RequestBytes(r)) == Some((r, [])) <==> NamesFit(r.owners, r.regs)
  {
    assert RequestBytes(r)[2..] == NamesBytes(r.owners, r.regs);
    NamesRoundTrip(r.owners, r.regs);
  }
}
