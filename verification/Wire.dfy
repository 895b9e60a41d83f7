/** What a device uploads. Encryption and signatures are ideal: an envelope
    carries its payload, and a record hash is a constructor, so equal hashes
    mean equal records. */
module Wire {
  import opened Order
  import opened Wrappers
  import opened Crdt

  const PADDING_BUCKET := 512
  const MAX_PAYLOAD := 524288
  const MAX_CIPHERTEXT := 524816

  /** The client-encrypted value of one phrase (localstore/crdt_adapter.go). */
  datatype Payload = Payload(text: Bytes, pinyin: Bytes, source: Bytes, lastUsedDay: int, state: PhraseState)

  /** `nonce` stands for the fresh randomness of one sealing, `size` for the
      length of the padded ciphertext. */
  datatype Envelope = Envelope(sequence: nat, previous: Hash, nonce: int, size: nat, payload: Payload)

  datatype Hash = NoHash | RecordHash(device: Bytes, envelope: Envelope)

  predicate ValidSize(size: nat) {
    PADDING_BUCKET + 16 <= size <= MAX_CIPHERTEXT && (size - 16) % PADDING_BUCKET == 0
  }

  /** The ciphertext of an encoding: a length prefix, padding to whole buckets, and
      the authentication tag. */
  function SealedSize(length: nat): (r: nat) {
    (4 + length + PADDING_BUCKET - 1) / PADDING_BUCKET * PADDING_BUCKET + 16
  }

  /** The relay takes every size the sealing of an acceptable encoding can have. */
  lemma SealedSizeIsValid(length: nat)
    requires length <= MAX_PAYLOAD
    ensures ValidSize(SealedSize(length))
  {
  }

  /** The metadata checks the relay applies before it looks at its table. */
  predicate ValidEnvelope(e: Envelope) {
    1 <= e.sequence <= MAX_I64 && ValidSize(e.size)
  }

  /** 16 bytes in lower-case hexadecimal. */
  predicate ValidDeviceId(id: Bytes) {
    |id| == 32 && forall i :: 0 <= i < |id| ==> '0' as int <= id[i] <= '9' as int || 'a' as int <= id[i] <= 'f' as int
  }
}
