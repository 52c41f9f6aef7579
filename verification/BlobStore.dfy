/** The blob store itself, over the files it keeps. */
module Blobs {
  import opened Prelude
  import opened BlobDisk
  import D = BlobDisk

  class BlobStore {
    const hash: Hasher
    var files: map<string, Bytes>
    var parts: map<string, Bytes>

    ghost function State(): Disk
      reads this
    {
      Disk(files, parts)
    }

    constructor (hash: Hasher)
      ensures this.hash == hash && State() == EMPTY_DISK
    {
      this.hash := hash;
      files := map[];
      parts := map[];
    }

    method Put(bytes: Bytes) returns (name: string)
      modifies this
      ensures State() == D.Put(hash, old(State()), bytes) && name == hash(bytes)
    {
      name := hash(bytes);
      if name in files {
        return;
      }
      files := files[name := bytes];
    }

    method Get(name: string) returns (r: Res<Option<Bytes>>)
      ensures r == D.Get(hash, State(), name)
    {
      if !IsValidHash(name) {
        return Err(InvalidHash);
      }
      if name !in files {
        return Ok(None);
      }
      var bytes := files[name];
      if hash(bytes) != name {
        return Err(Corrupt);
      }
      return Ok(Some(bytes));
    }

    method Remove(name: string) returns (r: Res<()>)
      modifies this
      ensures State() == D.Remove(old(State()), name)
      ensures r == if IsValidHash(name) then Ok(()) else Err(InvalidHash)
    {
      if !IsValidHash(name) {
        return Err(InvalidHash);
      }
      files := files - {name};
      return Ok(());
    }

    method WriteIncomingChunk(name: string, c: Chunk) returns (r: Res<()>)
      modifies this
      ensures State() == D.WriteChunk(old(State()), name, c)
      ensures r == match ChunkError(old(State()), name, c) { case None => Ok(()) case Some(e) => Err(e) }
    {
      if !IsValidHash(name) {
        return Err(InvalidHash);
      }
      var end := c.offset + |c.bytes|;
      if end >= TWO_TO_THE_64 {
        return Err(OffsetOverflow);
      }
      if end > c.total {
        return Err(PastEnd);
      }
      var part: Bytes;
      if name in parts {
        part := parts[name];
        if |part| != c.total {
          return Err(LengthDisagrees);
        }
      } else {
        part := Zeros(c.total);
      }
      part := part[..c.offset] + c.bytes + part[end..];
      parts := parts[name := part];
      return Ok(());
    }

    method FinalizeIncoming(name: string) returns (r: Res<bool>)
      modifies this
      ensures State() == D.Finalize(hash, old(State()), name)
      ensures r == FinalizeResult(hash, old(State()), name)
    {
      if !IsValidHash(name) {
        return Err(InvalidHash);
      }
      if name !in parts {
        return Ok(false);
      }
      var bytes := parts[name];
      parts := parts - {name};
      if hash(bytes) != name {
        return Ok(false);
      }
      files := files[name := bytes];
      return Ok(true);
    }

    method DiscardIncoming(name: string) returns (r: Res<()>)
      modifies this
      ensures State() == D.Discard(old(State()), name)
      ensures r == if IsValidHash(name) then Ok(()) else Err(InvalidHash)
    {
      if !IsValidHash(name) {
        return Err(InvalidHash);
      }
      parts := parts - {name};
      return Ok(());
    }
  }
}
