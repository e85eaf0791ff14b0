/** Identifiers and the update packet shared by the server, the client and the wire format. */
module Packets {
  import opened Shamir
  import opened ElGamal

  type byte = b: int | 0 <= b < 256
  type Bytes = seq<byte>
  type User = string

  /** A 16-byte identifier of an operation or a userset. */
  type Uuid = b: Bytes | |b| == 16 witness [0, 0, 0, 0, 0, 0, 0, 0, 0, 0, 0, 0, 0, 0, 0, 0]

  /** A point of the curve, by its affine coordinates. */
  datatype Point = Identity | Affine(x: nat, y: nat)

  datatype Option<+T> = None | Some(value: T)

  datatype MemberRecord<G> = MemberRecord(userset: Uuid, regKey: G, ownerKey: G, regShard: Shard)
  datatype OwnerRecord<G> = OwnerRecord(member: MemberRecord<G>, ownerShard: Shard)
  datatype ToDecryptRecord<G, C> = ToDecryptRecord(op: Uuid, ciphertext: Ciphertext<G, C>, ids: seq<int>)
  datatype FinishedRecord<G> =
    FinishedRecord(op: Uuid, regParts: seq<G>, ownerParts: seq<G>, regIds: seq<int>, ownerIds: seq<int>)

  datatype UpdateResponse<G, C> = UpdateResponse(
    addedAsMember: seq<MemberRecord<G>>,
    addedAsOwner: seq<OwnerRecord<G>>,
    onLookup: seq<Uuid>,
    toDecrypt: seq<ToDecryptRecord<G, C>>,
    finished: seq<FinishedRecord<G>>)

  function NoUpdates<G, C>(): UpdateResponse<G, C> { UpdateResponse([], [], [], [], []) }
}
