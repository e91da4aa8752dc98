/**
 * Content hashing of local files (duld/drive.py, `md5sum`).
 *
 * The hash algorithm itself is foreign to the model: a hasher is an object whose
 * state is the byte string absorbed so far and whose digest is a fixed function
 * of that string, so feeding chunks one after another is the same as feeding
 * their concatenation.
 */
module Hashing {

  newtype byte = x: int | 0 <= x < 256

  type Bytes = seq<byte>

  /** A hexadecimal digest as the hasher and the remote drive report it. */
  type Digest = string

  /** The size of every `read` that `md5sum` issues. */
  const CHUNK_SIZE: nat := 65536

  /** The bytes of consecutive reads, in the order they were read. */
  function Concat(chunks: seq<Bytes>): Bytes
  {
    if chunks == [] then [] else Concat(chunks[..|chunks| - 1]) + chunks[|chunks| - 1]
  }

  /** `read(size)` on a binary file positioned at `pos`: the next `size` bytes, fewer at the end, none past it. */
  function Read(contents: Bytes, pos: nat, size: nat): Bytes
    requires pos <= |contents|
  {
    if |contents| - pos < size then contents[pos..] else contents[pos..pos + size]
  }

  /** An incremental hasher handed out by the drive (`get_hasher`). */
  class Hasher {
    const algorithm: Bytes -> Digest
    /** Everything passed to `update` so far. */
    var absorbed: Bytes

    constructor (algorithm: Bytes -> Digest)
      ensures this.algorithm == algorithm && absorbed == []
    {
      this.algorithm := algorithm;
      absorbed := [];
    }

    method Update(chunk: Bytes)
      modifies this
      ensures absorbed == old(absorbed) + chunk
    {
      absorbed := absorbed + chunk;
    }

    function HexDigest(): Digest
      reads this
    {
      algorithm(absorbed)
    }
  }

  /**
   * Feeds a file to `hasher` in reads of CHUNK_SIZE bytes until a read comes back
   * empty, and returns the digest. `chunks` are the arguments of the `update` calls.
   */
  method Md5Sum(hasher: Hasher, contents: Bytes) returns (digest: Digest, ghost chunks: seq<Bytes>)
    modifies hasher
    ensures hasher.absorbed == old(hasher.absorbed) + contents
    ensures digest == hasher.algorithm(old(hasher.absorbed) + contents)
    ensures Concat(chunks) == contents
    ensures forall i :: 0 <= i < |chunks| ==> 0 < |chunks[i]| <= CHUNK_SIZE
    ensures forall i :: 0 <= i < |chunks| - 1 ==> |chunks[i]| == CHUNK_SIZE
  {
    var pos := 0;
    chunks := [];
    while true
      invariant pos <= |contents|
      invariant hasher.absorbed == old(hasher.absorbed) + contents[..pos]
      invariant Concat(chunks) == contents[..pos]
      invariant forall i :: 0 <= i < |chunks| ==> 0 < |chunks[i]| <= CHUNK_SIZE
      invariant forall i :: 0 <= i < |chunks| - 1 ==> |chunks[i]| == CHUNK_SIZE
      invariant chunks != [] && |chunks[|chunks| - 1]| < CHUNK_SIZE ==> pos == |contents|
      decreases |contents| - pos
    {
      var chunk := Read(contents, pos, CHUNK_SIZE);
      if |chunk| == 0 {
        break;
      }
      hasher.Update(chunk);
      assert contents[..pos] + chunk == contents[..pos + |chunk|];
      chunks := chunks + [chunk];
      pos := pos + |chunk|;
    }
    assert contents[..pos] == contents;
    digest := hasher.HexDigest();
  }
}
