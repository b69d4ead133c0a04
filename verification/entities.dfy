/** File entities: the wire record the listing endpoint returns, the client's
    `FileEntity`, the mapping between them, the root sentinel and the type
    predicates. */
module Entities {
  import opened Wrappers

  /** The well-known id of a drive's root folder. */
  const RootFileId: string := "root"
  const FolderType: string := "folder"
  const FileType: string := "file"

  /** Go's `int64`. */
  newtype int64 = x: int | -0x8000_0000_0000_0000 <= x < 0x8000_0000_0000_0000

  /** A timestamp as the entity stores it. The conversion of the server's UTC
      time into local-time text depends on the host's time zone, so it is kept
      symbolic: `LocalFormatOf(t)` is the local rendering of the UTC text `t`.
      `Unset` is the empty string of an entity not built from a record.
      Being a constructor, the rendering is taken to keep its source and
      never to yield that empty string; the round-trip lemmas below rest on
      this for the two timestamps. */
  datatype Timestamp = Unset | LocalFormatOf(utc: string) {
    /** The server text the timestamp was rendered from ("" when unset). */
    function Source(): string {
      if LocalFormatOf? then utc else ""
    }
  }

  /** The fields of a wire file record that the client reads. */
  datatype Record = Record(
    driveId: string,
    domainId: string,
    fileId: string,
    name: string,
    fileType: string,
    createdAt: string,
    updatedAt: string,
    fileExtension: string,
    size: int64,
    uploadId: string,
    parentFileId: string,
    crc64Hash: string,
    contentHash: string,
    contentHashName: string,
    category: string,
    syncFlag: bool,
    syncMeta: string)

  /** One file or folder as the client hands it out. `path` is the only field
      the client rewrites after construction. */
  datatype Entity = Entity(
    driveId: string,
    domainId: string,
    fileId: string,
    fileName: string,
    fileSize: int64,
    fileType: string,
    createdAt: Timestamp,
    updatedAt: Timestamp,
    fileExtension: string,
    uploadId: string,
    parentFileId: string,
    crc64Hash: string,
    contentHash: string,
    contentHashName: string,
    path: string,
    category: string,
    syncFlag: bool,
    syncMeta: string)

  predicate IsFolder(e: Entity) {
    e.fileType == FolderType
  }

  predicate IsFile(e: Entity) {
    e.fileType == FileType
  }

  predicate IsDriveRootFolder(e: Entity) {
    e.fileId == RootFileId
  }

  /** The entity standing for "/" before anything has been listed. */
  function RootEntity(): (e: Entity)
    ensures IsFolder(e) && !IsFile(e) && IsDriveRootFolder(e)
    ensures e.fileName == "/" && e.path == "/" && e.parentFileId == ""
    ensures e.fileSize == 0 && e.createdAt == Unset && e.updatedAt == Unset
  {
    Entity("", "", RootFileId, "/", 0, FolderType, Unset, Unset, "", "", "", "", "", "", "/", "", false, "")
  }

  /** A record mapped to an entity. The record's name doubles as the entity's
      path until a resolver or the walk sets the full path. */
  function ToEntity(rec: Record): Entity {
    Entity(rec.driveId, rec.domainId, rec.fileId, rec.name, rec.size, rec.fileType,
           LocalFormatOf(rec.createdAt), LocalFormatOf(rec.updatedAt),
           rec.fileExtension, rec.uploadId, rec.parentFileId,
           rec.crc64Hash, rec.contentHash, rec.contentHashName,
           rec.name, rec.category, rec.syncFlag, rec.syncMeta)
  }

  /** `createFileEntity`: nil maps to nil, a record to its entity. */
  function CreateEntity(rec: Option<Record>): (r: Option<Entity>)
    ensures r.Some? <==> rec.Some?
    ensures r.Some? ==>
              && r.value.fileId == rec.value.fileId
              && r.value.fileName == rec.value.name
              && r.value.fileType == rec.value.fileType
              && r.value.fileSize == rec.value.size
              && r.value.path == rec.value.name
  {
    match rec
    case None => None
    case Some(x) => Some(ToEntity(x))
  }

  /** The record an entity was built from, read back field by field. */
  function ToRecord(e: Entity): Record {
    Record(e.driveId, e.domainId, e.fileId, e.fileName, e.fileType,
           e.createdAt.Source(), e.updatedAt.Source(), e.fileExtension, e.fileSize,
           e.uploadId, e.parentFileId, e.crc64Hash, e.contentHash,
           e.contentHashName, e.category, e.syncFlag, e.syncMeta)
  }

  /** An entity as the mapping leaves it: the path is still the name and both
      timestamps come from the server. */
  predicate FromWire(e: Entity) {
    e.path == e.fileName && e.createdAt.LocalFormatOf? && e.updatedAt.LocalFormatOf?
  }

  /** No record field is lost by the mapping. */
  lemma RecordRoundTrip(rec: Record)
    ensures ToRecord(ToEntity(rec)) == rec
    ensures FromWire(ToEntity(rec))
  {
  }

  /** The entities the mapping produces are exactly those `FromWire`. */
  lemma EntityRoundTrip(e: Entity)
    ensures FromWire(e) <==> ToEntity(ToRecord(e)) == e
  {
  }

  /** Only folders are folders: the two type predicates never both hold,
      although an entity of any other type string satisfies neither. */
  lemma FolderAndFileExclusive(e: Entity)
    ensures !(IsFolder(e) && IsFile(e))
    ensures e.fileType != FolderType && e.fileType != FileType ==> !IsFolder(e) && !IsFile(e)
  {
  }
}
