/** Values of the file-set map: what is tracked, and in which state. */
module FileSet {
  import opened Prelude

  /** A container id: a vault-relative path. */
  type Key = string

  /** A file's bytes, by how they decode: valid UTF-8 is text, the rest is binary. */
  datatype Content = Utf8(text: string) | Binary(bytes: Bytes)

  /** A content hash as found in an entry. The hash is ideal: a digest names the
      one content it was computed from. Values that arrive from elsewhere may
      match no content known here, or not be a digest at all. */
  datatype Digest = DigestOf(content: Content) | Unmatched(hex: string) | Malformed(raw: string)

  datatype EntryKind = Text | Blob
  datatype EntryStatus = Live | Tombstoned

  /** One file-set entry. `tombstonedAt` is the document revision read right after
      the tombstone was written. */
  datatype FileEntry = FileEntry(kind: EntryKind, status: EntryStatus, contentHash: Digest,
                                 renamedFrom: Option<Key>, tombstonedAt: Option<nat>)
  {
    /** A live copy with the tombstone checkpoint cleared. */
    function ToLive(): FileEntry { this.(status := Live, tombstonedAt := None) }

    predicate IsTombstone(k: EntryKind, h: Digest) {
      status.Tombstoned? && kind == k && contentHash == h && renamedFrom.None? && tombstonedAt.Some?
    }
  }

  function TextHash(t: string): Digest { DigestOf(Utf8(t)) }

  function LiveText(t: string): FileEntry { FileEntry(Text, Live, TextHash(t), None, None) }

  function LiveBlob(c: Content): FileEntry { FileEntry(Blob, Live, DigestOf(c), None, None) }

  /** ASCII lower case, character by character. */
  function Lower(k: Key): (r: Key)
    ensures |r| == |k|
  {
    seq(|k|, i requires 0 <= i < |k| => if 'A' <= k[i] <= 'Z' then (k[i] as int + 32) as char else k[i])
  }

  /** Two different keys that name one file on a case-insensitive file system. */
  predicate CaseClash(j: Key, k: Key) { j != k && Lower(j) == Lower(k) }

  /** The same character, or one letter in its two cases. */
  predicate SameLetter(c: char, d: char) {
    c == d || ('A' <= c <= 'Z' && d as int == c as int + 32) || ('A' <= d <= 'Z' && c as int == d as int + 32)
  }

  /** Keys clash exactly when they differ, and only in the case of ASCII letters. */
  lemma CaseClashIff(j: Key, k: Key)
    ensures CaseClash(j, k) <==> j != k && |j| == |k| && forall i :: 0 <= i < |j| ==> SameLetter(j[i], k[i])
  {
    if |j| == |k| {
      forall i | 0 <= i < |j| ensures Lower(j)[i] == Lower(k)[i] <==> SameLetter(j[i], k[i]) {}
    }
  }
}
