/**
 Snapshot manifests as they are stored, published and imported.
 */
module Snapshots {
  import opened Files

  datatype SnapshotFile = SnapshotFile(sourceKey: string, path: string, rootFile: bool, hash: Hash, size: nat)

  datatype RegistryPart = RegistryPart(keys: seq<string>, hash: Hash, size: nat)

  datatype Metadata = Metadata(displayName: string, notes: string, image: string)

  datatype Snapshot = Snapshot(
    id: string,
    gameID: string,
    createdAt: int,
    files: seq<SnapshotFile>,
    registry: Option<RegistryPart>,
    metadata: Metadata,
    synced: bool)

  /** Every blob that restoring the snapshot reads. */
  function HashesOf(s: Snapshot): set<Hash> {
    (set f | f in s.files :: f.hash) + (if s.registry.Some? then {s.registry.value.hash} else {})
  }
}
