/** Key-log entries: the announcements and deliveries of epoch keys. */
module KeyLog {
  import opened Prelude

  /** Who an epoch key is wrapped to. */
  datatype Recipient = Device(peer: u64) | Paper

  /** A `Rotate` announces an epoch; a `Wrap` delivers its key to one recipient. */
  datatype KeyBody =
    | Rotate(parents: seq<Bytes32>, nonce: Bytes32)
    | Wrap(recipient: Recipient, blob: Bytes)

  datatype KeyLogEntry = KeyLogEntry(seqNo: u64, author: u64, epochId: Bytes32, body: KeyBody)
}
