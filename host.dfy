/** The operating system and library calls the checker consults, as oracles.
    Each field stands for one call whose semantics this model does not define. */
module Host {
  import opened Wrappers
  import opened Paths

  newtype byte = x: int | 0 <= x < 256

  /** A streaming hash object (`hashlib.new("sha256")`): its initial state,
      `update(chunk)` and `hexdigest()`, over a state type `S`. */
  datatype Hasher<!S> = Hasher(init: S, update: (S, seq<byte>) -> S, hexdigest: S -> string)

  /** One `(dirpath, dirnames, filenames)` triple of `os.walk`; `dirnames` is not used. */
  datatype WalkEntry = WalkEntry(root: Path, files: seq<Path>)

  /** A snapshot of the host at the time of one call. */
  datatype Env<!S> = Env(
    isFile: Path -> bool,               // os.path.isfile
    read: Path -> Option<seq<byte>>,    // the file's bytes; None when open or a read raises
    hasher: Hasher<S>,                  // hashlib.new("sha256")
    normpath: Path -> Path,             // os.path.normpath
    join: (Path, Path) -> Path,         // os.path.join
    walk: Path -> seq<WalkEntry>)       // os.walk, top-down

  /** `os.path.normpath` is idempotent: a normalised path normalises to itself. */
  ghost predicate NormIdempotent<S>(env: Env<S>)
  {
    forall p {:trigger env.normpath(env.normpath(p))} :: env.normpath(env.normpath(p)) == env.normpath(p)
  }
}
