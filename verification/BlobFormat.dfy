/** The signed blob and the payload kinds the node recognises by magic prefix (db/wire/codec). */
module BlobFormat {
  import opened Octets

  datatype Blob = Blob(signerHint: Bytes, data: Bytes, ttl: nat, timestamp: nat, signature: Bytes)

  const TOMBSTONE_MAGIC: Bytes := [0xDE, 0xAD, 0xBE, 0xEF]
  const DELEGATION_MAGIC: Bytes := [0xDE, 0x1E, 0x6A, 0x7E]
  const PUBKEY_MAGIC: Bytes := [0x50, 0x55, 0x42, 0x4B]
  const BOMB_MAGIC: Bytes := [0x42, 0x4F, 0x4D, 0x42]

  const SIGNING_PK_SIZE: nat := 2592
  const KEM_PK_SIZE: nat := 1568

  predicate IsTombstone(data: Bytes) {
    |data| == 36 && data[..4] == TOMBSTONE_MAGIC
  }

  function TombstoneTarget(data: Bytes): Bytes
    requires IsTombstone(data)
  {
    data[4..36]
  }

  predicate IsDelegation(data: Bytes) {
    |data| == 4 + SIGNING_PK_SIZE && data[..4] == DELEGATION_MAGIC
  }

  function DelegateKey(data: Bytes): Bytes
    requires IsDelegation(data)
  {
    data[4..4 + SIGNING_PK_SIZE]
  }

  predicate IsPubkey(data: Bytes) {
    |data| == 4 + SIGNING_PK_SIZE + KEM_PK_SIZE && data[..4] == PUBKEY_MAGIC
  }

  function EmbeddedKey(data: Bytes): Bytes
    requires IsPubkey(data)
  {
    data[4..4 + SIGNING_PK_SIZE]
  }

  /** Magic and room for the count field; says nothing about the count. */
  predicate HasBombMagic(data: Bytes) {
    |data| >= 8 && data[..4] == BOMB_MAGIC
  }

  predicate IsBomb(data: Bytes) {
    HasBombMagic(data) && |data| == 8 + 32 * ReadBigEndian(data[4..8])
  }

  function BombTargets(data: Bytes): (r: seq<Bytes>)
    requires IsBomb(data)
    ensures forall h :: h in r ==> |h| == 32
  {
    seq(ReadBigEndian(data[4..8]), i requires 0 <= i < ReadBigEndian(data[4..8]) => data[8 + 32 * i..40 + 32 * i])
  }

  /** Neither a tombstone nor a well-formed BOMB: the payloads a tombstone can block. */
  predicate IsRegular(data: Bytes) {
    !IsTombstone(data) && !IsBomb(data)
  }

  lemma KindsDisjoint(data: Bytes)
    ensures IsTombstone(data) ==> !IsDelegation(data) && !IsPubkey(data) && !HasBombMagic(data)
    ensures IsDelegation(data) ==> !IsPubkey(data) && !HasBombMagic(data)
    ensures IsPubkey(data) ==> !HasBombMagic(data)
  {
    assert TOMBSTONE_MAGIC[0] == 0xDE && BOMB_MAGIC[0] == 0x42 && PUBKEY_MAGIC[0] == 0x50;
    assert DELEGATION_MAGIC[1] == 0x1E;
  }

  /** End of life of a blob, saturating at the largest 64-bit value; 0 means permanent. */
  function SaturatingExpiry(timestamp: nat, ttl: nat): nat {
    if ttl == 0 then 0
    else if timestamp + ttl > TWO_64 - 1 then TWO_64 - 1
    else timestamp + ttl
  }
}
