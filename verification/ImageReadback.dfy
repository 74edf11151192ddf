/** Chunked hashing and the read-back check of a written image.  SHA-256 is a parameter; where a
    result needs it, that no two contents share a digest is a stated assumption. */
module ImageReadback {
  import opened Common
  import opened ConstantTime

  type Bytes = seq<bv8>
  type Digest = Bytes -> Text

  ghost predicate CollisionFree(digest: Digest) {
    forall x, y :: digest(x) == digest(y) ==> x == y
  }

  /** The hash object: it remembers what it was fed. */
  class Hasher {
    ghost var fed: Bytes
    var digest: Digest
    var state: Bytes

    ghost predicate Valid() reads this { state == fed }

    constructor (digest: Digest)
      ensures Valid() && fed == [] && this.digest == digest
    {
      this.digest := digest;
      fed, state := [], [];
    }

    method Update(chunk: Bytes)
      requires Valid()
      modifies this`fed, this`state
      ensures Valid() && fed == old(fed) + chunk
    {
      fed, state := fed + chunk, state + chunk;
    }

    method HexDigest() returns (d: Text)
      requires Valid()
      ensures d == digest(fed)
    {
      d := digest(state);
    }
  }

  /** An open file.  A read returns at least one byte unless at the end or asked for none, and may
      return fewer than asked for; `short` says how many fewer, so it covers every pattern. */
  class File {
    const content: Bytes
    const short: nat -> nat
    var pos: nat

    ghost predicate Valid() reads this { pos <= |content| }

    constructor (content: Bytes, short: nat -> nat)
      ensures Valid() && pos == 0 && this.content == content && this.short == short
    {
      this.content, this.short := content, short;
      pos := 0;
    }

    method Read(n: nat) returns (chunk: Bytes)
      requires Valid()
      modifies this`pos
      ensures Valid() && pos == old(pos) + |chunk| && |chunk| <= n
      ensures chunk == content[old(pos)..pos]
      ensures chunk == [] <==> n == 0 || old(pos) == |content|
    {
      var most := Min(n, |content| - pos);
      var take := if most == 0 then 0 else most - short(pos) % most;
      chunk := content[pos..pos + take];
      pos := pos + take;
    }
  }

  /** The digest of the whole file, for every chunk size and every pattern of short reads. */
  method HashFile(digest: Digest, content: Option<Bytes>, chunkSize: nat, short: nat -> nat) returns (hash: Option<Text>)
    requires chunkSize > 0
    ensures hash == if content.Some? then Some(digest(content.value)) else None
  {
    if content.None? {
      return None;
    }
    var h := new Hasher(digest);
    var f := new File(content.value, short);
    var chunk := f.Read(chunkSize);
    while chunk != []
      invariant h.Valid() && f.Valid() && h.digest == digest
      invariant h.fed + chunk == f.content[..f.pos]
      invariant chunk == [] ==> f.pos == |f.content|
      decreases |f.content| - f.pos + |chunk|
    {
      h.Update(chunk);
      chunk := f.Read(chunkSize);
    }
    assert f.content[..f.pos] == content.value;
    var d := h.HexDigest();
    hash := Some(d);
  }

  /** The digest of exactly the first `size` bytes of a device, or of all of a shorter one. */
  method HashBlockDevice(digest: Digest, device: Option<Bytes>, size: nat, chunkSize: nat, short: nat -> nat)
    returns (hash: Option<Text>)
    requires chunkSize > 0
    ensures hash == if device.Some? then Some(digest(device.value[..Min(size, |device.value|)])) else None
  {
    if device.None? {
      return None;
    }
    var h := new Hasher(digest);
    var f := new File(device.value, short);
    var remaining: nat := size;
    while remaining > 0
      invariant h.Valid() && f.Valid() && h.digest == digest
      invariant remaining == size - f.pos && h.fed == f.content[..f.pos]
      decreases remaining
    {
      var chunk := f.Read(Min(chunkSize, remaining));
      if chunk == [] {
        assert f.pos == |f.content| <= size;
        break;
      }
      h.Update(chunk);
      remaining := remaining - |chunk|;
    }
    assert f.pos == Min(size, |device.value|);
    var d := h.HexDigest();
    hash := Some(d);
  }

  /** A copy into the file-backed slot.  `copied` and `written` are what the copy does: whether it
      reports success, and what the slot file then holds; anything is possible.  When the read-back
      does not match the slot file is removed, if it can be (`unlinked`). */
  method WriteFileBacked(digest: Digest, image: Option<Bytes>, copied: bool, written: Option<Bytes>,
                         unlinked: bool, before: Option<Bytes>, chunkSize: nat, short: nat -> nat)
    returns (success: bool, slot: Option<Bytes>)
    requires chunkSize > 0
    ensures success <==> image.Some? && copied && written.Some? && digest(written.value) == digest(image.value)
    ensures success && CollisionFree(digest) ==> slot == image
    ensures slot == if image.None? then before else if success || !copied || !unlinked then written else None
  {
    var source := HashFile(digest, image, chunkSize, short);
    if source.None? {
      return false, before;
    }
    if !copied {
      return false, written;
    }
    var dest := HashFile(digest, written, chunkSize, short);
    if dest != source {
      return false, if unlinked then None else written;
    }
    return true, written;
  }

  /** `dd` onto a block device: `exited` is its exit status being 0, `written` what the device then
      holds.  Only as many bytes as the image has are read back. */
  method WriteDd(digest: Digest, image: Option<Bytes>, exited: bool, written: Option<Bytes>, chunkSize: nat, short: nat -> nat)
    returns (success: bool)
    requires chunkSize > 0
    ensures success <==> image.Some? && exited && written.Some?
                         && digest(written.value[..Min(|image.value|, |written.value|)]) == digest(image.value)
    ensures success && CollisionFree(digest) ==>
              |image.value| <= |written.value| && written.value[..|image.value|] == image.value
  {
    var source := HashFile(digest, image, chunkSize, short);
    if source.None? || !exited {
      return false;
    }
    var dest := HashBlockDevice(digest, written, |image.value|, chunkSize, short);
    success := dest == source;
  }

  /** True exactly when the file is readable and its digest is the expected one up to case. */
  method VerifySha256(digest: Digest, lower: Text -> Text, content: Option<Bytes>, expected: Text,
                      chunkSize: nat, short: nat -> nat)
    returns (ok: bool)
    requires chunkSize > 0
    ensures ok <==> content.Some? && lower(digest(content.value)) == lower(expected)
  {
    var actual := HashFile(digest, content, chunkSize, short);
    if actual.None? {
      return false;
    }
    ok := CtEqual(lower(actual.value), lower(expected));
  }
}
