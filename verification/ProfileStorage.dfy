/** The client's profile file: encrypted records appended one after another, and iterated from the start. */
module ProfileStorage {
  import opened Packets
  import opened ByteCodec
  import opened PacketCodec
  import opened PointCodec
  import opened Shamir

  datatype ProfileRecord = ProfileRecord(userset: Uuid, regKey: Point, ownerKey: Point, regShard: Shard,
                                         ownerShard: Option<Shard>)

  /** The curve of the public keys and the order of its group, below which shard values stay. */
  datatype Params = Params(curve: Curve, order: nat)

  ghost predicate ValidParams(k: Params) { ValidCurve(k.curve) && 0 < k.order <= Power256(FIELD_SIZE) }

  // --------------------------------------------------------------- record fields

  function ShardValueSize(k: Params): nat requires k.order > 0 { MinSize(k.order - 1) }

  /** One byte of ID, then the value in as many bytes as the greatest value needs. */
  function ShardField(k: Params, s: Shard): Bytes
    requires k.order > 0
  {
    EncodeBE(NatOf(s.id), 1) + EncodeBE(s.value, ShardValueSize(k))
  }

  function ReadShardField(k: Params, b: Bytes): Option<(Shard, Bytes)>
    requires k.order > 0
  {
    match ReadFixed(b, 1)
    case None => None
    case Some((id, rest)) =>
      match ReadFixed(rest, ShardValueSize(k))
      case None => None
      case Some((value, rest)) => Some((Shard(id, value % k.order), rest))
  }

  predicate StorableShard(k: Params, s: Shard) { 1 <= s.id <= 255 && s.value < k.order }

  lemma ShardFieldReadsBack(k: Params, s: Shard, rest: Bytes)
    requires k.order > 0 && StorableShard(k, s)
    ensures ReadShardField(k, ShardField(k, s) + rest) == Some((s, rest))
  {
    var value := EncodeBE(s.value, ShardValueSize(k));
    MinSizeHolds(k.order - 1);
    assert Power256(1) == 256 * Power256(0);
    Regroup(EncodeBE(s.id, 1), value, rest);
    FixedReadsBack(s.id, 1, value + rest);
    FixedReadsBack(s.value, ShardValueSize(k), rest);
    SmallRemainder(s.value, k.order);
  }

  function ReadKeyField(k: Params, b: Bytes): Option<(Point, Bytes)> {
    match ReadBlob(b, POINT_SIZE)
    case None => None
    case Some((encoded, rest)) =>
      match Decode(k.curve, encoded)
      case None => None
      case Some(q) => Some((q, rest))
  }

  lemma KeyFieldReadsBack(k: Params, q: Point, rest: Bytes)
    requires ValidParams(k) && ValidPoint(k.curve, q)
    ensures ReadKeyField(k, Encode(q) + rest) == Some((q, rest))
  {
    BlobReadsBack(Encode(q), rest);
    DecodeEncodePoint(k.curve, q);
  }

  // --------------------------------------------------------------------- records

  function FlagsByte(r: ProfileRecord): byte { if r.ownerShard.Some? then 1 else 0 }

  function ShardFields(k: Params, r: ProfileRecord): Bytes
    requires k.order > 0
  {
    ShardField(k, r.regShard) + OwnerField(k, r)
  }

  /** Only an owner's record has an owner-layer shard behind the regular one. */
  function OwnerField(k: Params, r: ProfileRecord): Bytes
    requires k.order > 0
  {
    match r.ownerShard case Some(s) => ShardField(k, s) case None => []
  }

  function Fields(r: ProfileRecord, shards: Bytes): Bytes {
    UuidBytes(r.userset) + (Encode(r.regKey) + (Encode(r.ownerKey) + shards))
  }

  function Serialize(k: Params, r: ProfileRecord): Bytes
    requires k.order > 0
  {
    [FlagsByte(r)] + Fields(r, ShardFields(k, r))
  }

  /** Only the lowest bit of the flags tells whether an owner-layer shard follows. */
  function Parse(k: Params, b: Bytes): Option<ProfileRecord>
    requires k.order > 0
  {
    if |b| < 1 then None else ReadFields(k, b[0] % 2 == 1, b[1..])
  }

  function ReadFields(k: Params, isOwner: bool, b: Bytes): Option<ProfileRecord>
    requires k.order > 0
  {
    match ReadUuid(b)
    case None => None
    case Some((userset, rest)) =>
      match ReadKeyField(k, rest)
      case None => None
      case Some((regKey, rest)) =>
        match ReadKeyField(k, rest)
        case None => None
        case Some((ownerKey, rest)) => ParseShards(k, isOwner, userset, regKey, ownerKey, rest)
  }

  function ParseShards(k: Params, isOwner: bool, userset: Uuid, regKey: Point, ownerKey: Point, b: Bytes)
    : Option<ProfileRecord>
    requires k.order > 0
  {
    match ReadShardField(k, b)
    case None => None
    case Some((regShard, rest)) =>
      if !isOwner then Some(ProfileRecord(userset, regKey, ownerKey, regShard, None))
      else match ReadShardField(k, rest)
        case None => None
        case Some((ownerShard, _)) => Some(ProfileRecord(userset, regKey, ownerKey, regShard, Some(ownerShard)))
  }

  ghost predicate Storable(k: Params, r: ProfileRecord) {
    && ValidParams(k) && ValidPoint(k.curve, r.regKey) && ValidPoint(k.curve, r.ownerKey)
    && StorableShard(k, r.regShard) && (r.ownerShard.Some? ==> StorableShard(k, r.ownerShard.value))
  }

  /** Behind the flags come the userset, the keys and the shards. */
  lemma ShardsParse(k: Params, r: ProfileRecord)
    requires Storable(k, r)
    ensures ParseShards(k, r.ownerShard.Some?, r.userset, r.regKey, r.ownerKey, ShardFields(k, r)) == Some(r)
  {
    ShardFieldReadsBack(k, r.regShard, OwnerField(k, r));
    if r.ownerShard.Some? {
      ShardFieldReadsBack(k, r.ownerShard.value, []);
      assert OwnerField(k, r) + [] == OwnerField(k, r);
    }
  }

  /** Owner flag, keys and shards all survive. */
  lemma ParseSerialize(k: Params, r: ProfileRecord)
    requires Storable(k, r)
    ensures Parse(k, Serialize(k, r)) == Some(r)
  {
    FieldsParse(k, r);
    FlagsParse(k, r, Fields(r, ShardFields(k, r)));
  }

  lemma FlagsParse(k: Params, r: ProfileRecord, fields: Bytes)
    requires k.order > 0 && ReadFields(k, r.ownerShard.Some?, fields) == Some(r)
    ensures Parse(k, [FlagsByte(r)] + fields) == Some(r)
  {
    assert ([FlagsByte(r)] + fields)[1..] == fields;
  }

  lemma FieldsParse(k: Params, r: ProfileRecord)
    requires Storable(k, r)
    ensures ReadFields(k, r.ownerShard.Some?, Fields(r, ShardFields(k, r))) == Some(r)
  {
    ShardsParse(k, r);
    KeysParse(k, r, ShardFields(k, r));
  }

  lemma KeysParse(k: Params, r: ProfileRecord, shards: Bytes)
    requires Storable(k, r)
    ensures ReadFields(k, r.ownerShard.Some?, Fields(r, shards))
         == ParseShards(k, r.ownerShard.Some?, r.userset, r.regKey, r.ownerKey, shards)
  {
    var c := Encode(r.ownerKey) + shards;
    UuidReadsBack(r.userset, Encode(r.regKey) + c);
    KeyFieldReadsBack(k, r.regKey, c);
    KeyFieldReadsBack(k, r.ownerKey, shards);
  }

  /** A record takes few bytes. */
  lemma SerializeSize(k: Params, r: ProfileRecord)
    requires ValidParams(k)
    ensures |Serialize(k, r)| <= 1 + 16 + 2 * POINT_SIZE + 2 * (1 + FIELD_SIZE)
  {
    MinSizeLeast(k.order - 1, FIELD_SIZE);
  }

  // ------------------------------------------------------------------------ file

  /** The profile cipher under the user's key: a pair of byte blobs for a plaintext and a nonce. */
  datatype Cipher = Cipher(encrypt: (Bytes, nat) -> Sealed, decrypt: Sealed -> Bytes)

  const PLAIN_LIMIT: nat := 0x8000

  /** Decrypting undoes encrypting, and the blobs of a short plaintext have sizes that 16 bits tell, not both zero. */
  ghost predicate ValidCipher(x: Cipher) {
    forall b, n {:trigger x.encrypt(b, n)} ::
      x.decrypt(x.encrypt(b, n)) == b && (|b| < PLAIN_LIMIT ==> Sizeable(x.encrypt(b, n)))
  }

  predicate Sizeable(s: Sealed) { |s.0| < 65536 && |s.1| < 65536 && (|s.0| > 0 || |s.1| > 0) }

  /** File integers are little-endian. */
  function Bytes16(n: nat): (b: Bytes)
    ensures |b| == 2
  {
    [n % 256, (n / 256) % 256]
  }

  function Value16(lo: byte, hi: byte): nat { lo + 256 * hi }

  function SizeHeader(s: Sealed): (b: Bytes)
    ensures |b| == 4
  {
    Bytes16(|s.0|) + Bytes16(|s.1|)
  }

  /** What one call of `add_profile_data` appends. */
  function Entry(s: Sealed): Bytes { SizeHeader(s) + s.0 + s.1 }

  function FileBytes(entries: seq<Sealed>): Bytes {
    if |entries| == 0 then [] else FileBytes(entries[..|entries| - 1]) + Entry(entries[|entries| - 1])
  }

  /** The encrypted forms of records added in this order. */
  function SealAll(k: Params, x: Cipher, rs: seq<ProfileRecord>, nonces: seq<nat>): (entries: seq<Sealed>)
    requires k.order > 0 && |rs| == |nonces|
    ensures |entries| == |rs|
  {
    if |rs| == 0 then []
    else SealAll(k, x, rs[..|rs| - 1], nonces[..|rs| - 1]) + [x.encrypt(Serialize(k, rs[|rs| - 1]), nonces[|rs| - 1])]
  }

  lemma SealedGrows(k: Params, x: Cipher, rs: seq<ProfileRecord>, nonces: seq<nat>, r: ProfileRecord, nonce: nat)
    requires k.order > 0 && |rs| == |nonces|
    ensures SealAll(k, x, rs + [r], nonces + [nonce]) == SealAll(k, x, rs, nonces) + [x.encrypt(Serialize(k, r), nonce)]
  {
    assert (rs + [r])[..|rs|] == rs && (nonces + [nonce])[..|rs|] == nonces;
  }

  lemma FileGrows(entries: seq<Sealed>, s: Sealed)
    ensures FileBytes(entries + [s]) == FileBytes(entries) + Entry(s)
  {
    assert (entries + [s])[..|entries|] == entries;
  }

  /** Appends the sizes of the two blobs, then the blobs. */
  method AppendEntry(file: Buffer, sealed: Sealed)
    modifies file
    ensures file.data == old(file.data) + Entry(sealed)
  {
    file.Write(Bytes16(|sealed.0|));
    file.Write(Bytes16(|sealed.1|));
    file.Write(sealed.0);
    file.Write(sealed.1);
  }

  /** A file of records stays one: it now holds the new record behind all that were added before. */
  method AddProfileData(k: Params, x: Cipher, file: Buffer, record: ProfileRecord, nonce: nat,
                        ghost rs: seq<ProfileRecord>, ghost nonces: seq<nat>)
    requires k.order > 0 && |rs| == |nonces| && file.data == FileBytes(SealAll(k, x, rs, nonces))
    modifies file
    ensures file.data == FileBytes(SealAll(k, x, rs + [record], nonces + [nonce]))
  {
    var sealed := x.encrypt(Serialize(k, record), nonce);
    AppendEntry(file, sealed);
    SealedGrows(k, x, rs, nonces, record, nonce);
    FileGrows(SealAll(k, x, rs, nonces), sealed);
  }

  type Sizes = (nat, nat)

  /** A file opened for reading, with its one cursor. */
  class BinFile {
    const data: Bytes
    var pos: nat

    constructor (data: Bytes)
      ensures this.data == data && pos == 0
    {
      this.data := data;
      pos := 0;
    }

    method SetPos(p: nat)
      modifies this`pos
      ensures pos == p
    {
      pos := p;
    }

    /** At the end there is nothing to read and both sizes are zero. */
    method ReadSizes() returns (sizes: Sizes)
      requires pos >= |data| || pos + 4 <= |data|
      modifies this`pos
      ensures sizes == SizesAt(data, old(pos))
      ensures pos == if old(pos) >= |data| then old(pos) else old(pos) + 4
    {
      if pos >= |data| {
        return (0, 0);
      }
      sizes := (Value16(data[pos], data[pos + 1]), Value16(data[pos + 2], data[pos + 3]));
      pos := pos + 4;
    }

    method ReadBytes(n: nat) returns (b: Bytes)
      requires pos + n <= |data|
      modifies this`pos
      ensures b == data[old(pos)..old(pos) + n] && pos == old(pos) + n
    {
      b := data[pos..pos + n];
      pos := pos + n;
    }
  }

  function SizesAt(data: Bytes, pos: nat): Sizes
    requires pos >= |data| || pos + 4 <= |data|
  {
    if pos >= |data| then (0, 0)
    else (Value16(data[pos], data[pos + 1]), Value16(data[pos + 2], data[pos + 3]))
  }

  // -------------------------------------------------------- positions of records

  /** Where the i-th record starts. */
  function Start(entries: seq<Sealed>, i: nat): nat
    requires i <= |entries|
  {
    |FileBytes(entries[..i])|
  }

  lemma {:induction false} FilePrefix(entries: seq<Sealed>, i: nat)
    requires i <= |entries|
    ensures FileBytes(entries[..i]) <= FileBytes(entries)
  {
    if i == |entries| {
      assert entries[..i] == entries;
    } else {
      var t := entries[..|entries| - 1];
      assert t[..i] == entries[..i];
      FilePrefix(t, i);
    }
  }

  lemma StartEnd(entries: seq<Sealed>)
    ensures Start(entries, 0) == 0 && Start(entries, |entries|) == |FileBytes(entries)|
  {
    assert entries[..|entries|] == entries;
  }

  /** The sizes and the two blobs of s stand at this position, where the iterator looks for them. */
  ghost predicate FoundAt(data: Bytes, at: nat, s: Sealed) {
    && at + 4 + |s.0| + |s.1| <= |data| && SizesAt(data, at) == (|s.0|, |s.1|)
    && data[at + 4..at + 4 + |s.0|] == s.0
    && data[at + 4 + |s.0|..at + 4 + |s.0| + |s.1|] == s.1
  }

  lemma Slice(a: Bytes, b: Bytes, c: Bytes)
    ensures (a + b + c)[|a|..|a| + |b|] == b
  {
  }

  lemma SizeRoundTrip(n: nat)
    requires n < 65536
    ensures Value16(Bytes16(n)[0], Bytes16(n)[1]) == n
  {
  }

  lemma HeaderAt(data: Bytes, at: nat, s: Sealed)
    requires Sizeable(s) && at + 4 <= |data| && data[at..at + 4] == SizeHeader(s)
    ensures SizesAt(data, at) == (|s.0|, |s.1|)
  {
    SizeRoundTrip(|s.0|);
    SizeRoundTrip(|s.1|);
    assert forall j :: 0 <= j < 4 ==> data[at + j] == SizeHeader(s)[j];
    assert SizeHeader(s)[0] == Bytes16(|s.0|)[0] && SizeHeader(s)[1] == Bytes16(|s.0|)[1];
    assert SizeHeader(s)[2] == Bytes16(|s.1|)[0] && SizeHeader(s)[3] == Bytes16(|s.1|)[1];
  }

  lemma EntryFound(before: Bytes, s: Sealed, tail: Bytes)
    requires Sizeable(s)
    ensures FoundAt(before + Entry(s) + tail, |before|, s)
  {
    var h, data := SizeHeader(s), before + Entry(s) + tail;
    assert data == before + h + (s.0 + s.1 + tail);
    assert data == (before + h) + s.0 + (s.1 + tail);
    assert data == (before + h + s.0) + s.1 + tail;
    Slice(before, h, s.0 + s.1 + tail);
    Slice(before + h, s.0, s.1 + tail);
    Slice(before + h + s.0, s.1, tail);
    HeaderAt(data, |before|, s);
  }

  /** Each entry stands where the one before it ends. */
  lemma EntryAt(entries: seq<Sealed>, i: nat)
    requires i < |entries| && Sizeable(entries[i])
    ensures FoundAt(FileBytes(entries), Start(entries, i), entries[i])
    ensures Start(entries, i + 1) == Start(entries, i) + |Entry(entries[i])|
  {
    var data, before, s := FileBytes(entries), FileBytes(entries[..i]), entries[i];
    assert entries[..i + 1] == entries[..i] + [s];
    FileGrows(entries[..i], s);
    FilePrefix(entries, i + 1);
    PrefixRest(before + Entry(s), data);
    EntryFound(before, s, data[|before + Entry(s)|..]);
  }

  lemma PrefixRest(a: Bytes, b: Bytes)
    requires a <= b
    ensures b == a + b[|a|..]
  {
  }

  // ------------------------------------------------------------------- iteration

  /** Decrypting and parsing under the user's key. */
  type Opener = Sealed -> Option<ProfileRecord>

  function OpenWith(k: Params, x: Cipher): Opener
    requires k.order > 0
  {
    s => Parse(k, x.decrypt(s))
  }

  /** This entry can be told apart from the end and opens to this record. */
  ghost predicate Opens(opener: Opener, s: Sealed, r: ProfileRecord) {
    Sizeable(s) && opener(s) == Some(r)
  }

  ghost predicate AllOpen(opener: Opener, entries: seq<Sealed>, rs: seq<ProfileRecord>) {
    && |entries| == |rs|
    && forall i {:trigger Opens(opener, entries[i], rs[i])} :: 0 <= i < |rs| ==> Opens(opener, entries[i], rs[i])
  }

  lemma {:induction false} SealedAt(k: Params, x: Cipher, rs: seq<ProfileRecord>, nonces: seq<nat>, i: nat)
    requires k.order > 0 && |rs| == |nonces| && i < |rs|
    ensures SealAll(k, x, rs, nonces)[i] == x.encrypt(Serialize(k, rs[i]), nonces[i])
  {
    if i == |rs| - 1 {
    } else {
      SealedAt(k, x, rs[..|rs| - 1], nonces[..|rs| - 1], i);
    }
  }

  lemma SealOpens(k: Params, x: Cipher, r: ProfileRecord, nonce: nat)
    requires ValidCipher(x) && Storable(k, r)
    ensures Opens(OpenWith(k, x), x.encrypt(Serialize(k, r), nonce), r)
  {
    ParseSerialize(k, r);
    SerializeSize(k, r);
  }

  /** Whatever storable records are added, in any number, they all open again. */
  lemma SealedOpen(k: Params, x: Cipher, rs: seq<ProfileRecord>, nonces: seq<nat>)
    requires ValidCipher(x) && k.order > 0 && |rs| == |nonces|
    requires forall i {:trigger Storable(k, rs[i])} :: 0 <= i < |rs| ==> Storable(k, rs[i])
    ensures AllOpen(OpenWith(k, x), SealAll(k, x, rs, nonces), rs)
  {
    var entries := SealAll(k, x, rs, nonces);
    forall i | 0 <= i < |rs| ensures Opens(OpenWith(k, x), entries[i], rs[i]) {
      SealedAt(k, x, rs, nonces, i);
      SealOpens(k, x, rs[i], nonces[i]);
    }
  }

  /** What the file holds at the cursor: the next entry, or its end. */
  function EntryOrEnd(entries: seq<Sealed>, i: nat): Option<Sealed> {
    if i < |entries| then Some(entries[i]) else None
  }

  function EntrySize(entry: Option<Sealed>): nat {
    match entry
    case Some(s) => 4 + |s.0| + |s.1|
    case None => 0
  }

  ghost predicate StandsAt(data: Bytes, at: nat, s: Option<Sealed>) {
    match s
    case Some(s) => FoundAt(data, at, s) && Sizeable(s)
    case None => at >= |data|
  }

  /** The i-th entry stands at this start, the next one right behind it, and only behind the last one the file ends. */
  ghost predicate Placed(data: Bytes, entries: seq<Sealed>, starts: seq<nat>, i: nat)
    requires |starts| == |entries| + 1 && i <= |entries|
  {
    && StandsAt(data, starts[i], EntryOrEnd(entries, i))
    && (i < |entries| ==> starts[i + 1] == starts[i] + EntrySize(Some(entries[i])))
    && (starts[i] == |data| <==> i == |entries|)
  }

  ghost predicate Layout(data: Bytes, entries: seq<Sealed>, starts: seq<nat>) {
    && |starts| == |entries| + 1 && starts[0] == 0
    && forall i {:trigger Placed(data, entries, starts, i)} :: 0 <= i <= |entries| ==> Placed(data, entries, starts, i)
  }

  lemma FileLayout(entries: seq<Sealed>) returns (starts: seq<nat>)
    requires forall s :: s in entries ==> Sizeable(s)
    ensures Layout(FileBytes(entries), entries, starts)
  {
    starts := seq(|entries| + 1, i requires 0 <= i <= |entries| => Start(entries, i));
    StartEnd(entries);
    forall i | 0 <= i <= |entries| ensures Placed(FileBytes(entries), entries, starts, i) {
      if i < |entries| {
        EntryAt(entries, i);
      }
    }
  }

  /** The iterator keeps its own position, but reads wherever the file's cursor is when it is created. */
  class ProfileDataIterator {
    const opener: Opener
    const file: BinFile
    var pos: nat
    var sizes: Sizes
    var record: Option<ProfileRecord>

    constructor (opener: Opener, file: BinFile, pos: nat, ghost entry: Option<Sealed>)
      requires StandsAt(file.data, file.pos, entry)
      modifies file`pos
      ensures this.opener == opener && this.file == file && this.pos == pos
      ensures Loaded(entry) && file.pos == old(file.pos) + EntrySize(entry)
    {
      this.opener, this.file, this.pos := opener, file, pos;
      sizes, record := (0, 0), None;
      new;
      Load(entry);
    }

    /** The iterator carries the sizes and the content of this entry, or nothing. */
    ghost predicate Loaded(entry: Option<Sealed>)
      reads this
    {
      match entry
      case Some(s) => record == opener(s) && sizes == (|s.0|, |s.1|)
      case None => record == None
    }

    /** `read_profile_record_enc_sizes` and then `read_profile_record`. */
    method Load(ghost entry: Option<Sealed>)
      requires StandsAt(file.data, file.pos, entry)
      modifies this`sizes, this`record, file`pos
      ensures Loaded(entry) && file.pos == old(file.pos) + EntrySize(entry)
    {
      sizes := file.ReadSizes();
      if sizes.0 == 0 && sizes.1 == 0 {
        record := None;
        return;
      }
      var first := file.ReadBytes(sizes.0);
      var second := file.ReadBytes(sizes.1);
      record := opener((first, second));
    }

    /** `operator++`: the next entry starts after the two sizes and the two blobs. */
    method Advance(ghost s: Sealed, ghost next: Option<Sealed>)
      requires Loaded(Some(s)) && StandsAt(file.data, pos + EntrySize(Some(s)), next)
      modifies this`pos, this`sizes, this`record, file`pos
      ensures Loaded(next) && pos == old(pos) + EntrySize(Some(s))
    {
      pos := pos + 2 + 2 + sizes.0 + sizes.1;
      file.SetPos(pos);
      Load(next);
    }
  }

  lemma OpenSizeable(opener: Opener, entries: seq<Sealed>, rs: seq<ProfileRecord>)
    requires AllOpen(opener, entries, rs)
    ensures forall s :: s in entries ==> Sizeable(s)
  {
    forall s | s in entries ensures Sizeable(s) {
      var i :| 0 <= i < |entries| && entries[i] == s;
      assert Opens(opener, entries[i], rs[i]);
    }
  }

  /** From an iterator at the first entry up to the end position. */
  method Collect(begin: ProfileDataIterator, end: nat, ghost entries: seq<Sealed>, ghost starts: seq<nat>,
                 ghost rs: seq<ProfileRecord>)
    returns (out: seq<ProfileRecord>)
    requires Layout(begin.file.data, entries, starts) && AllOpen(begin.opener, entries, rs)
    requires begin.pos == 0 && begin.Loaded(EntryOrEnd(entries, 0)) && end == |begin.file.data|
    modifies begin, begin.file
    ensures out == rs
  {
    out := [];
    ghost var i := 0;
    assert Placed(begin.file.data, entries, starts, 0);
    while begin.pos != end
      invariant i <= |rs| && begin.Loaded(EntryOrEnd(entries, i)) && begin.pos == starts[i]
      invariant starts[i] == end <==> i == |rs|
      invariant out == rs[..i]
      decreases |rs| - i
    {
      assert Placed(begin.file.data, entries, starts, i);
      assert Placed(begin.file.data, entries, starts, i + 1) && Opens(begin.opener, entries[i], rs[i]);
      out := out + [begin.record.value];
      begin.Advance(entries[i], EntryOrEnd(entries, i + 1));
      i := i + 1;
    }
    assert rs[..i] == rs;
  }

  /**
   * Iterating over the file of any added records, with the beginning taken before the end, yields exactly these
   * records in order, and stops at the end of the file.
   */
  method IterProfileData(k: Params, x: Cipher, data: Bytes, ghost rs: seq<ProfileRecord>, ghost nonces: seq<nat>)
    returns (out: seq<ProfileRecord>)
    requires k.order > 0 && ValidCipher(x) && |rs| == |nonces|
    requires forall i {:trigger Storable(k, rs[i])} :: 0 <= i < |rs| ==> Storable(k, rs[i])
    requires data == FileBytes(SealAll(k, x, rs, nonces))
    ensures out == rs
  {
    SealedOpen(k, x, rs, nonces);
    out := Traverse(OpenWith(k, x), data, SealAll(k, x, rs, nonces), rs);
  }

  method Traverse(opener: Opener, data: Bytes, ghost entries: seq<Sealed>, ghost rs: seq<ProfileRecord>)
    returns (out: seq<ProfileRecord>)
    requires data == FileBytes(entries) && AllOpen(opener, entries, rs)
    ensures out == rs
  {
    OpenSizeable(opener, entries, rs);
    ghost var starts := FileLayout(entries);
    var file := new BinFile(data);
    assert Placed(data, entries, starts, 0);
    var begin := new ProfileDataIterator(opener, file, 0, EntryOrEnd(entries, 0));
    assert |rs| > 0 ==> Placed(data, entries, starts, 1);
    var end := new ProfileDataIterator(opener, file, |data|, EntryOrEnd(entries, 1));
    out := Collect(begin, end.pos, entries, starts, rs);
  }

  // --------------------------------------------------------------------- search

  /** The first record of this userset. */
  function FirstOf(rs: seq<ProfileRecord>, userset: Uuid): (r: Option<ProfileRecord>)
    ensures r.None? <==> forall i :: 0 <= i < |rs| ==> rs[i].userset != userset
    ensures r.Some? ==> r.value in rs && r.value.userset == userset
  {
    if |rs| == 0 then None
    else if rs[0].userset == userset then Some(rs[0])
    else FirstOf(rs[1..], userset)
  }

  /** Nothing added before it is of the userset. */
  lemma {:induction false} FirstIsFirst(rs: seq<ProfileRecord>, userset: Uuid) returns (i: nat)
    requires exists j :: 0 <= j < |rs| && rs[j].userset == userset
    ensures i < |rs| && rs[i].userset == userset && FirstOf(rs, userset) == Some(rs[i])
    ensures forall j :: 0 <= j < i ==> rs[j].userset != userset
  {
    i := 0;
    if rs[0].userset != userset {
      var j :| 0 <= j < |rs| && rs[j].userset == userset;
      assert rs[1..][j - 1].userset == userset;
      var k := FirstIsFirst(rs[1..], userset);
      i := k + 1;
    }
  }

  /** From an iterator at entry i up to the end position, stopping at a record of the userset. */
  method Search(begin: ProfileDataIterator, end: nat, userset: Uuid, ghost entries: seq<Sealed>,
                ghost starts: seq<nat>, ghost rs: seq<ProfileRecord>, ghost first: nat)
    returns (r: Option<ProfileRecord>)
    requires Layout(begin.file.data, entries, starts) && AllOpen(begin.opener, entries, rs) && first <= |rs|
    requires begin.pos == starts[first] && begin.Loaded(EntryOrEnd(entries, first)) && end == |begin.file.data|
    modifies begin, begin.file
    ensures r == FirstOf(rs[first..], userset)
  {
    ghost var i := first;
    assert Placed(begin.file.data, entries, starts, i);
    assert i < |rs| ==> Opens(begin.opener, entries[i], rs[i]);
    while begin.pos != end && begin.record.value.userset != userset
      invariant first <= i <= |rs| && begin.Loaded(EntryOrEnd(entries, i)) && begin.pos == starts[i]
      invariant starts[i] == end <==> i == |rs|
      invariant i < |rs| ==> begin.record == Some(rs[i])
      invariant FirstOf(rs[first..], userset) == FirstOf(rs[i..], userset)
      decreases |rs| - i
    {
      assert Placed(begin.file.data, entries, starts, i);
      assert Placed(begin.file.data, entries, starts, i + 1);
      assert i + 1 < |rs| ==> Opens(begin.opener, entries[i + 1], rs[i + 1]);
      assert rs[i..][1..] == rs[i + 1..];
      begin.Advance(entries[i], EntryOrEnd(entries, i + 1));
      i := i + 1;
    }
    return if begin.pos == end then None else begin.record;
  }

  /** Searching the file, with the beginning taken before the end, finds the first record added for the userset. */
  method FindRecord(opener: Opener, data: Bytes, userset: Uuid, ghost entries: seq<Sealed>,
                    ghost rs: seq<ProfileRecord>)
    returns (r: Option<ProfileRecord>)
    requires data == FileBytes(entries) && AllOpen(opener, entries, rs)
    ensures r == FirstOf(rs, userset)
  {
    OpenSizeable(opener, entries, rs);
    ghost var starts := FileLayout(entries);
    var file := new BinFile(data);
    assert Placed(data, entries, starts, 0);
    var begin := new ProfileDataIterator(opener, file, 0, EntryOrEnd(entries, 0));
    assert |rs| > 0 ==> Placed(data, entries, starts, 1);
    var end := new ProfileDataIterator(opener, file, |data|, EntryOrEnd(entries, 1));
    assert rs[0..] == rs;
    r := Search(begin, end.pos, userset, entries, starts, rs, 0);
  }

  /** With the end taken first, the beginning holds the second record, or none at all. */
  method BeginAfterEnd(opener: Opener, data: Bytes, ghost entries: seq<Sealed>, ghost rs: seq<ProfileRecord>)
    returns (first: Option<ProfileRecord>)
    requires data == FileBytes(entries) && AllOpen(opener, entries, rs) && |rs| > 0
    ensures first == if |rs| > 1 then Some(rs[1]) else None
  {
    OpenSizeable(opener, entries, rs);
    ghost var starts := FileLayout(entries);
    var file := new BinFile(data);
    assert Placed(data, entries, starts, 0);
    var end := new ProfileDataIterator(opener, file, |data|, EntryOrEnd(entries, 0));
    assert Placed(data, entries, starts, 1) && (|rs| > 1 ==> Opens(opener, entries[1], rs[1]));
    var begin := new ProfileDataIterator(opener, file, 0, EntryOrEnd(entries, 1));
    first := begin.record;
  }

  /**
   * The search with the end taken first, when the first two entries are of one size: it goes on at the second
   * record after looking at it, so the first record is never seen.
   */
  method FindRecordEndFirst(opener: Opener, data: Bytes, userset: Uuid, ghost entries: seq<Sealed>,
                            ghost rs: seq<ProfileRecord>)
    returns (r: Option<ProfileRecord>)
    requires data == FileBytes(entries) && AllOpen(opener, entries, rs) && |rs| > 1
    requires EntrySize(Some(entries[0])) == EntrySize(Some(entries[1]))
    ensures r == FirstOf(rs[1..], userset)
  {
    OpenSizeable(opener, entries, rs);
    ghost var starts := FileLayout(entries);
    var file := new BinFile(data);
    assert Placed(data, entries, starts, 0) && Placed(data, entries, starts, 1);
    var end := new ProfileDataIterator(opener, file, |data|, EntryOrEnd(entries, 0));
    assert Opens(opener, entries[1], rs[1]);
    var begin := new ProfileDataIterator(opener, file, 0, EntryOrEnd(entries, 1));
    if begin.pos == end.pos || begin.record.value.userset == userset {
      return if begin.pos == end.pos then None else begin.record;
    }
    begin.Advance(entries[1], EntryOrEnd(entries, 1));
    r := Search(begin, end.pos, userset, entries, starts, rs, 1);
  }
}
