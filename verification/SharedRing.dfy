/** What the two shared-memory rings have in common: two slots of bytes and a bounded number of tries. */
module SharedRing {

  type Bytes = seq<bv8>

  const SLOTS := 2
  const READ_RETRIES := 4

  function PutByte(slots: seq<Bytes>, slot: nat, at: nat, b: bv8): seq<Bytes> {
    if slot < |slots| && at < |slots[slot]| then slots[slot := slots[slot][at := b]] else slots
  }
}
