/** `compute_file_hash`: the file read in 8192-byte chunks, each folded into a running hash. */
module Fingerprint {
  import opened Wrappers
  import opened Paths
  import opened Host

  /** A hex digest as `hexdigest()` returns it. */
  type Digest = string

  /** The argument of `file.read(8192)`. */
  const ChunkSize: nat := 8192

  /** The successive values of `file.read(ChunkSize)` up to the first empty one. */
  function Chunks(data: seq<byte>): seq<seq<byte>>
    decreases |data|
  {
    if data == [] then []
    else
      var n := if |data| < ChunkSize then |data| else ChunkSize;
      [data[..n]] + Chunks(data[n..])
  }

  function Flatten(cs: seq<seq<byte>>): seq<byte>
  {
    if cs == [] then [] else cs[0] + Flatten(cs[1..])
  }

  /** The chunks are the file's bytes in order, none empty, none over
      `ChunkSize`, and all but the last exactly `ChunkSize`. */
  lemma {:induction false} ChunksPartition(data: seq<byte>)
    ensures Flatten(Chunks(data)) == data
    ensures forall i :: 0 <= i < |Chunks(data)| ==> 0 < |Chunks(data)[i]| <= ChunkSize
    ensures forall i :: 0 <= i < |Chunks(data)| - 1 ==> |Chunks(data)[i]| == ChunkSize
    decreases |data|
  {
    if data != [] {
      var n := if |data| < ChunkSize then |data| else ChunkSize;
      ChunksPartition(data[n..]);
      var cs := Chunks(data);
      assert cs == [data[..n]] + Chunks(data[n..]);
      assert cs[1..] == Chunks(data[n..]);
      assert data[..n] + data[n..] == data;
    }
  }

  /** The running hash after `update` has been called on each chunk in turn. */
  function Absorb<S>(h: Hasher<S>, state: S, chunks: seq<seq<byte>>): S
    decreases |chunks|
  {
    if chunks == [] then state else Absorb(h, h.update(state, chunks[0]), chunks[1..])
  }

  /** What `compute_file_hash(p)` returns: `None` when the file cannot be
      read, else the hex digest of its chunks. */
  function FileHash<S>(env: Env<S>, p: Path): Option<Digest>
  {
    match env.read(p)
    case None => None
    case Some(data) => Some(env.hasher.hexdigest(Absorb(env.hasher, env.hasher.init, Chunks(data))))
  }

  /** The chunk loop of `compute_file_hash`. */
  method ComputeFileHash<S>(env: Env<S>, filePath: Path) returns (r: Option<Digest>)
    ensures r == FileHash(env, filePath)
    ensures r.None? <==> env.read(filePath).None?
  {
    var contents := env.read(filePath);
    if contents.None? {
      return None;
    }
    var data := contents.value;
    var h := env.hasher;
    var state := h.init;
    var pos := 0;
    assert data[pos..] == data;
    while pos < |data|
      invariant 0 <= pos <= |data|
      invariant Absorb(h, state, Chunks(data[pos..])) == Absorb(h, h.init, Chunks(data))
      decreases |data| - pos
    {
      var n := if |data| - pos < ChunkSize then |data| - pos else ChunkSize;
      var chunk := data[pos..pos + n];
      assert Chunks(data[pos..]) == [chunk] + Chunks(data[pos + n..]) by {
        assert data[pos..][..n] == chunk;
        assert data[pos..][n..] == data[pos + n..];
      }
      state := h.update(state, chunk);
      pos := pos + n;
    }
    assert Chunks(data[pos..]) == [];
    r := Some(h.hexdigest(state));
  }
}
