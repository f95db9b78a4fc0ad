/** The values the engine passes between its layers: versions, observations, baselines, operations. */
module Types {
  type Key = string
  newtype byte = x: int | 0 <= x < 256
  type Content = seq<byte>

  datatype Option<+T> = None | Some(value: T)

  /** What `stat` reports about a Vault file; the planner and the executor compare nothing else. */
  datatype Stamp = Stamp(size: nat, mtime: int)

  /** R2 derives an ETag from the bytes alone, so the model lets it carry the digested bytes. */
  datatype ETag = ETag(digest: Content)

  /** What a write response proves about a remote version. */
  datatype RemoteVersion = RemoteVersion(size: nat, etag: Option<ETag>, lastModified: Option<int>)

  /** A logical deletion. `version` is `None` when the observation names no version. */
  datatype Deletion = Deletion(version: Option<ETag>, objectPresent: bool)

  datatype RemoteEntry = RemoteEntry(size: nat, etag: Option<ETag>, lastModified: int, deleted: Option<Deletion>)

  datatype PreviousEntry = PreviousEntry(local: Option<Stamp>, remote: Option<RemoteVersion>)

  datatype Eol = Lf | Crlf | Mixed
  datatype Shape = Shape(bom: bool, eol: Eol, trailingNewline: bool)

  datatype ConflictKind = BothModified | LocalModifiedRemoteDeleted | LocalDeletedRemoteModified | BothCreatedDifferent

  datatype ExpectedRemote = Absent | Exactly(etag: Option<ETag>)

  datatype IntentType = KeepLocal | KeepRemote | AcceptRemoteDelete | AcceptLocalDelete | Merged

  datatype Intent = Intent(conflictId: string, kind: IntentType, merged: Option<Content>)

  /** One planned operation. The free-text reason is not modelled. */
  datatype Operation =
    | Noop
    | Upload(here: Stamp, expected: ExpectedRemote)
    | Download(expectedHere: Option<Stamp>, there: RemoteEntry)
    | DeleteLocal(here: Stamp)
    | DeleteRemote(etag: Option<ETag>)
    | PruneBaseline
    | ResolveKeepLocal(id: string, here: Stamp, etag: Option<ETag>, expectAbsent: bool)
    | ResolveKeepRemote(id: string, expectedHere: Option<Stamp>, etag: Option<ETag>)
    | ResolveMerged(id: string, here: Stamp, etag: Option<ETag>, merged: Content)
    | ResolveAcceptRemoteDelete(id: string, here: Stamp, deletion: Deletion)
    | ResolveAcceptLocalDelete(id: string, accepted: ETag)
    | Conflict(kind: ConflictKind)
  {
    predicate IsResolution() {
      ResolveKeepLocal? || ResolveKeepRemote? || ResolveMerged? || ResolveAcceptRemoteDelete? ||
        ResolveAcceptLocalDelete?
    }
  }

  datatype PartialReason =
    | PhysicalDeletePending
    | RemoteAppliedLocalChanged
    | RacedWithLocalEdit
    | RemoteWriteLandingUnknown
    | LocalDeleteLandingUnknown

  datatype UnresolvedReason = AmbiguousPut | StateCommitFailed

  /** What one operation reports. `Raised` is an operation that throws instead of reporting. */
  datatype Result =
    | Applied(localWrite: Option<Stamp>, remote: Option<RemoteVersion>, retired: Option<ETag>, physicalDeleted: bool)
    | Stale
    | Blocked
    | Failed(httpStatus: Option<int>)
    | Unresolved(reason: UnresolvedReason, remote: Option<RemoteVersion>, retired: Option<ETag>, physicalDeleted: bool)
    | Partial(why: PartialReason, remote: Option<RemoteVersion>)
    | NoAction
    | ConflictResult
    | Raised
  {
    function Remote(): Option<RemoteVersion> {
      if Applied? || Unresolved? || Partial? then remote else None
    }
  }

  function Version(content: Content): RemoteVersion {
    RemoteVersion(|content|, Some(ETag(content)), None)
  }

  /** The entry restricted to one key, as a map lookup that may find nothing. */
  function Lookup<V>(m: map<Key, V>, key: Key): (r: Option<V>)
    ensures r.Some? <==> key in m
    ensures r.Some? ==> r.value == m[key]
  {
    if key in m then Some(m[key]) else None
  }
}
