/** The requester's side of a decryption: what it remembers, and how it completes a finished operation. */
module Client {
  import opened Packets
  import opened Shamir
  import opened ElGamal
  import opened ByteCodec
  import opened ProfileStorage

  /** The plaintext from a finished record and both own shards: own parts are added last, then all are joined. */
  function Finish<G, K, M, C>(s: Schema<G, K, M, C>, c: Ciphertext<G, C>, regShard: Shard, ownerShard: Shard,
                              f: FinishedRecord<G>): Result<M>
    requires s.group.order >= 2
  {
    match GetPart(s.group, c.c2, ownerShard, f.ownerIds)
    case Err(e) => Err(e)
    case Ok(ownerPart) =>
      match GetPart(s.group, c.c1, regShard, f.regIds)
      case Err(e) => Err(e)
      case Ok(regPart) => Ok(Join(s, c, f.regParts + [regPart], f.ownerParts + [ownerPart]))
  }

  datatype Finished<+M> = NotPending | UnknownUserset | Refused(error: Error) | Decrypted(plaintext: M)

  class Client<G, K, M, C> {
    const schema: Schema<G, K, M, C>
    const params: Params
    const cipher: Cipher
    const profile: Buffer
    var pending: map<Uuid, (Uuid, Ciphertext<G, C>)>
    ghost var records: seq<ProfileRecord>
    ghost var nonces: seq<nat>

    /** The profile file holds the records added so far, in order. */
    ghost predicate Valid()
      reads this, profile
    {
      && params.order > 0 && ValidCipher(cipher) && |records| == |nonces|
      && profile.data == FileBytes(SealAll(params, cipher, records, nonces))
      && forall i {:trigger Storable(params, records[i])} :: 0 <= i < |records| ==> Storable(params, records[i])
    }

    constructor (schema: Schema<G, K, M, C>, params: Params, cipher: Cipher)
      requires params.order > 0 && ValidCipher(cipher)
      ensures this.schema == schema && this.params == params && this.cipher == cipher
      ensures Valid() && fresh(profile) && records == [] && pending == map[]
    {
      this.schema, this.params, this.cipher := schema, params, cipher;
      profile := new Buffer();
      pending, records, nonces := map[], [], [];
    }

    method AddProfileRecord(record: ProfileRecord, nonce: nat)
      requires Valid() && Storable(params, record)
      modifies profile, `records, `nonces
      ensures Valid() && records == old(records) + [record]
    {
      AddProfileData(params, cipher, profile, record, nonce, records, nonces);
      AllStorable(params, records, record);
      records, nonces := records + [record], nonces + [nonce];
    }

    /** Remembers the ciphertext under the operation the server answered with; a known operation keeps its entry. */
    method Decrypt(op: Uuid, userset: Uuid, ciphertext: Ciphertext<G, C>)
      modifies `pending
      ensures pending == if op in old(pending) then old(pending) else old(pending)[op := (userset, ciphertext)]
    {
      if op !in pending {
        pending := pending[op := (userset, ciphertext)];
      }
    }

    /** The first record added for the userset; its file is searched with the beginning taken before the end. */
    method FindProfileRecord(userset: Uuid) returns (r: Option<ProfileRecord>)
      requires Valid()
      ensures r == FirstOf(records, userset)
    {
      SealedOpen(params, cipher, records, nonces);
      r := FindRecord(OpenWith(params, cipher), profile.data, userset, SealAll(params, cipher, records, nonces),
                      records);
    }

    /** `encrypt`: under the keys of the first record added for the userset; without one there is an exception. */
    method Encrypt(userset: Uuid, m: M, fromPoint: Point -> G, r1: nat, r2: nat, nonce: nat)
      returns (c: Option<Ciphertext<G, C>>)
      requires Valid()
      ensures c == match FirstOf(records, userset)
                   case None => None
                   case Some(record) => Some(ElGamal.Encrypt(schema, m, fromPoint(record.regKey),
                                                             fromPoint(record.ownerKey), r1, r2, nonce))
    {
      var record := FindProfileRecord(userset);
      if record.None? {
        return None;
      }
      var regKey, ownerKey := fromPoint(record.value.regKey), fromPoint(record.value.ownerKey);
      return Some(ElGamal.Encrypt(schema, m, regKey, ownerKey, r1, r2, nonce));
    }

    /** What the client makes of a finished record in its present state. */
    ghost function Outcome(f: FinishedRecord<G>): (r: Finished<M>)
      requires schema.group.order >= 2
      reads this
      ensures r.NotPending? <==> f.op !in pending
    {
      if f.op !in pending then NotPending
      else
        var (userset, ciphertext) := pending[f.op];
        match FirstOf(records, userset)
        case None => UnknownUserset
        case Some(ProfileRecord(_, _, _, _, None)) => UnknownUserset
        case Some(ProfileRecord(_, _, _, regShard, Some(ownerShard))) =>
          match Finish(schema, ciphertext, regShard, ownerShard, f)
          case Err(e) => Refused(e)
          case Ok(m) => Decrypted(m)
    }

    /** The requester is an owner of the userset: the owner-layer shard is used without a check. */
    ghost predicate OwnsPending(op: Uuid)
      reads this
    {
      op in pending ==>
        var r := FirstOf(records, pending[op].0);
        r.Some? ==> r.value.ownerShard.Some?
    }

    /** The entry is forgotten whatever comes of it, so an operation is handed to the callback at most once. */
    method HandleFinishedDecryption(f: FinishedRecord<G>) returns (r: Finished<M>)
      requires Valid() && schema.group.order >= 2 && OwnsPending(f.op)
      modifies `pending
      ensures Valid()
      ensures r == old(Outcome(f)) && pending == old(pending) - {f.op}
      ensures r.UnknownUserset? <==> f.op in old(pending) && FirstOf(records, old(pending)[f.op].0).None?
    {
      if f.op !in pending {
        assert pending - {f.op} == pending;
        return NotPending;
      }
      var (userset, ciphertext) := pending[f.op];
      pending := pending - {f.op};
      var record := FindProfileRecord(userset);
      if record.None? {
        return UnknownUserset;
      }
      var ownerPart := DecryptGet2l(schema.group, OwnerLayer, ciphertext, record.value.ownerShard.value, f.ownerIds);
      if ownerPart.Err? {
        return Refused(ownerPart.error);
      }
      var regPart := DecryptGet2l(schema.group, RegLayer, ciphertext, record.value.regShard, f.regIds);
      if regPart.Err? {
        return Refused(regPart.error);
      }
      return Decrypted(Join(schema, ciphertext, f.regParts + [regPart.value], f.ownerParts + [ownerPart.value]));
    }
  }

  lemma AllStorable(k: Params, rs: seq<ProfileRecord>, r: ProfileRecord)
    requires Storable(k, r) && forall i {:trigger Storable(k, rs[i])} :: 0 <= i < |rs| ==> Storable(k, rs[i])
    ensures forall i {:trigger Storable(k, (rs + [r])[i])} :: 0 <= i <= |rs| ==> Storable(k, (rs + [r])[i])
  {
    forall i | 0 <= i <= |rs| ensures Storable(k, (rs + [r])[i]) {
      if i < |rs| {
        assert Storable(k, rs[i]);
      }
    }
  }
}
