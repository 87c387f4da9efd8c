/**
 The storage the blob store runs on: byte strings, the digest and compression
 functions as parameters, and a disk with directory aliases and hard links.

 A path names a file through its directory, which may be an alias (a symbolic
 link, a junction, a mount) of another directory.  Aliases keep the last
 component.  A location holds an inode and an inode holds bytes, so two
 locations can share one inode.
 */
module Files {
  datatype Option<+T> = None | Some(value: T)

  /** How a call ends.  `Crashed` means that the process died inside the call. */
  datatype Outcome = Done | Failed | Crashed

  newtype Byte = b: int | 0 <= b < 256
  type Bytes = seq<Byte>

  /** A digest in hexadecimal, split after its first two digits, which name a directory. */
  datatype Hash = Hash(shard: string, rest: string)

  /** SHA-256, zstd and the digest that names a save location, known only through the laws that callers assume. */
  datatype Codec = Codec(
    sha: Bytes -> Hash,
    pack: Bytes -> Bytes,
    unpack: Bytes -> Option<Bytes>,
    locationKey: string -> string)
  {
    ghost predicate Lossless() {
      forall b :: unpack(pack(b)) == Some(b)
    }

    ghost predicate CollisionFree() {
      forall a, b :: sha(a) == sha(b) ==> a == b
    }

    /** Different names give different location keys. */
    ghost predicate TellsApart() {
      forall a, b :: locationKey(a) == locationKey(b) ==> a == b
    }

    /** The stored bytes unpack to content whose digest is `h`. */
    predicate Decodes(stored: Bytes, h: Hash) {
      unpack(stored).Some? && sha(unpack(stored).value) == h
    }

    /** The check that the store makes before it trusts a file: digest and length. */
    predicate Verifies(stored: Bytes, h: Hash, size: nat) {
      Decodes(stored, h) && |unpack(stored).value| == size
    }
  }

  /** A unique name part: an id from core.NewID, or what os.CreateTemp puts for its star. */
  datatype Id = Id(n: int)

  type Dir = seq<string>

  /** The last component of a path, by the role that its spelling gives it. */
  datatype Name =
    | BlobName(hash: Hash)                  // <hash>.zst
    | StagingName(hash: Hash, id: Id)      // <hash>.zst.prepare-<id>
    | TempName(id: Id)                     // a name in .staging made by os.CreateTemp
    | SetAsideName(hash: Hash, id: Id)     // <hash>.zst.invalid-<time>

  datatype Path = Path(dir: Dir, name: Name)

  function BlobPath(root: Dir, h: Hash): Path {
    Path(root + [h.shard], BlobName(h))
  }

  function StagingPath(root: Dir, h: Hash, id: Id): Path {
    Path(root + [h.shard], StagingName(h, id))
  }

  function TempPath(root: Dir, id: Id): Path {
    Path(root + [".staging"], TempName(id))
  }

  predicate WithinRoot(p: Path, root: Dir) {
    root <= p.dir
  }

  /** Different roots never give a blob the same path. */
  lemma BlobPathInjective(r: Dir, r': Dir, h: Hash)
    requires BlobPath(r, h) == BlobPath(r', h)
    ensures r == r'
  {
    assert (r + [h.shard])[..|r|] == r;
    assert (r' + [h.shard])[..|r'|] == r';
    assert |r + [h.shard]| == |r' + [h.shard]|;
  }

  /** A disk.  Inodes are positions in `data`, which only ever grows. */
  datatype Disk = Disk(alias: Dir -> Dir, links: map<Path, nat>, data: seq<Bytes>)
  {
    ghost predicate Valid() {
      forall l :: l in links ==> links[l] < |data|
    }

    /** The location a path resolves to. */
    function At(p: Path): Path {
      Path(alias(p.dir), p.name)
    }

    predicate Has(p: Path) {
      At(p) in links
    }

    function Read(p: Path): Bytes
      requires Valid() && Has(p)
    {
      data[links[At(p)]]
    }

    predicate SameFile(p: Path, q: Path) {
      Has(p) && Has(q) && links[At(p)] == links[At(q)]
    }

    /** `p` names here the inode that `q` named on the other disk. */
    predicate SameLink(other: Disk, p: Path, q: Path) {
      Has(p) && other.Has(q) && links[At(p)] == other.links[other.At(q)]
    }

    predicate Verified(codec: Codec, p: Path, h: Hash, size: nat)
      requires Valid()
    {
      Has(p) && codec.Verifies(Read(p), h, size)
    }

    function Unlink(p: Path): Disk {
      this.(links := links - {At(p)})
    }

    /** A new file, on a new inode. */
    function Put(p: Path, bytes: Bytes): Disk {
      Disk(alias, links[At(p) := |data|], data + [bytes])
    }

    function Link(p: Path, q: Path): Disk
      requires Has(p)
    {
      this.(links := links[At(q) := links[At(p)]])
    }

    /** Rename, replacing whatever `q` named. */
    function Move(p: Path, q: Path): Disk
      requires Has(p)
    {
      this.(links := (links - {At(p)})[At(q) := links[At(p)]])
    }

    /** The same locations, each with the same bytes. */
    ghost predicate SameFilesAs(other: Disk)
      requires Valid() && other.Valid()
    {
      && alias == other.alias
      && links.Keys == other.links.Keys
      && forall l :: l in links ==> data[links[l]] == other.data[other.links[l]]
    }
  }

  /** Every file whose name promises a digest keeps that promise, wherever it is. */
  ghost predicate Trusted(codec: Codec, d: Disk)
    requires d.Valid()
  {
    forall l :: l in d.links && l.name.BlobName? ==> codec.Decodes(d.data[d.links[l]], l.name.hash)
  }
}
