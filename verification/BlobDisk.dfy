/** What the content-addressed store does to its directory, as values. */
module BlobDisk {
  import opened Prelude

  /** Finished blobs by file name, and the partial ones by the hash they are for. */
  datatype Disk = Disk(files: map<string, Bytes>, parts: map<string, Bytes>)

  datatype BlobError = InvalidHash | OffsetOverflow | PastEnd | LengthDisagrees | Corrupt

  datatype Res<+T> = Ok(value: T) | Err(error: BlobError)

  const EMPTY_DISK := Disk(map[], map[])

  predicate IsHexDigit(c: char) { '0' <= c <= '9' || 'a' <= c <= 'f' }

  /** 64 lower-case hexadecimal digits: the only names the store ever opens. */
  predicate IsValidHash(name: string) {
    |name| == 64 && forall i :: 0 <= i < |name| ==> IsHexDigit(name[i])
  }

  function AllZeroName(bytes: Bytes): string { seq(64, _ => '0') }

  /** The digest, in hexadecimal. Nothing else is assumed of it. */
  type Hasher = f: Bytes -> string | forall b :: IsValidHash(f(b)) witness AllZeroName

  ghost predicate Collision(hash: Hasher, a: Bytes, b: Bytes) { a != b && hash(a) == hash(b) }

  datatype Chunk = Chunk(offset: u64, total: u64, bytes: Bytes)

  function End(c: Chunk): nat { c.offset + |c.bytes| }

  predicate Fits(c: Chunk) { End(c) <= c.total }

  function Overlay(p: Bytes, offset: nat, bytes: Bytes): Bytes
    requires offset + |bytes| <= |p|
  {
    p[..offset] + bytes + p[offset + |bytes|..]
  }

  function Zeros(n: nat): Bytes { seq(n, _ => 0) }

  /** The part after a chunk that lies within it. */
  function Written(part: Option<Bytes>, c: Chunk): Bytes
    requires Fits(c) && (part.Some? ==> |part.value| == c.total)
  {
    Overlay(if part.Some? then part.value else Zeros(c.total), c.offset, c.bytes)
  }

  function PartOf(d: Disk, name: string): Option<Bytes> {
    if name in d.parts then Some(d.parts[name]) else None
  }

  function ChunkError(d: Disk, name: string, c: Chunk): Option<BlobError> {
    if !IsValidHash(name) then Some(InvalidHash)
    else if End(c) >= TWO_TO_THE_64 then Some(OffsetOverflow)
    else if End(c) > c.total then Some(PastEnd)
    else if name in d.parts && |d.parts[name]| != c.total then Some(LengthDisagrees)
    else None
  }

  function WriteChunk(d: Disk, name: string, c: Chunk): Disk {
    if ChunkError(d, name, c).Some? then d
    else d.(parts := d.parts[name := Written(PartOf(d, name), c)])
  }

  function Put(hash: Hasher, d: Disk, bytes: Bytes): Disk {
    if hash(bytes) in d.files then d else d.(files := d.files[hash(bytes) := bytes])
  }

  function Get(hash: Hasher, d: Disk, name: string): Res<Option<Bytes>> {
    if !IsValidHash(name) then Err(InvalidHash)
    else if name !in d.files then Ok(None)
    else if hash(d.files[name]) != name then Err(Corrupt)
    else Ok(Some(d.files[name]))
  }

  function Remove(d: Disk, name: string): Disk {
    if IsValidHash(name) then d.(files := d.files - {name}) else d
  }

  function Discard(d: Disk, name: string): Disk {
    if IsValidHash(name) then d.(parts := d.parts - {name}) else d
  }

  function FinalizeResult(hash: Hasher, d: Disk, name: string): Res<bool> {
    if !IsValidHash(name) then Err(InvalidHash)
    else Ok(name in d.parts && hash(d.parts[name]) == name)
  }

  function Finalize(hash: Hasher, d: Disk, name: string): Disk {
    if !IsValidHash(name) || name !in d.parts then d
    else if hash(d.parts[name]) != name then d.(parts := d.parts - {name})
    else Disk(d.files[name := d.parts[name]], d.parts - {name})
  }
}
