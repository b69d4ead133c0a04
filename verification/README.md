# File listing client of the aliyunpan API, in Dafny

This project models the file-listing client in `aliyunpan/file_directory.go` and proves properties about the model. The modelled parts are:

- mapping a server record to a `FileEntity`, and the root sentinel;
- the `FileList` aggregates `TotalSize` and `Count`;
- normalising a listing request;
- one page (`FileList`) and all pages (`FileListGetAll`);
- path resolution (`FileInfoByPath`, `getFileInfoByPath`);
- the recursive tree walk with its visitor (`FilesDirectoriesRecurseList`, `recurseList`).

The server is a deterministic oracle, `Listing.Drive`. For each key (drive id, parent folder id), it holds the successive responses to that folder's listing. Each response is either a page (items, next marker) or a failure.

- A request without a marker gets the first page.
- A request with marker `m` gets the page after the first page that handed out `m`.
- An unknown folder, an unknown marker, or a page past the end is a failure.

Modules, one per file:

| file | module | contents |
|---|---|---|
| `wrappers.dfy` | `Wrappers` | `Option`, `Result` |
| `entities.dfy` | `Entities` | wire record, `Entity`, `createFileEntity`, root sentinel, type predicates |
| `file_list.dfy` | `FileLists` | `TotalSize` with `int64` wrap-around, `Count` |
| `paths.dfy` | `Paths` | `path.IsAbs`, `strings.Split`/`Join`, `path.Clean` on rooted paths, the child path `ReplaceAll(parent+"/"+name, "//", "/")` |
| `listing.dfy` | `Listing` | request defaults, the drive oracle, `FileList`, `FileListGetAll` |
| `resolver.dfy` | `Resolver` | `FileInfoByPath`, `getFileInfoByPath` |
| `walker.dfy` | `Walker` | `FilesDirectoriesRecurseList`, `recurseList` |

## How the model is organised

Each operation has a partner that it is proved equal to:

- `FileListGetAll` is Go's loop, written as a method. It is proved equal to `ListAll`, the concatenation of the page run. `PageRun` is characterised as a chain: each page is the answer to the previous page's marker, and the run ends at the first page without a marker.
- Path resolution is proved equivalent, in both directions, to the existence of a descent. A descent is a chain of entities from the root sentinel down the cleaned path's names. Each entity in it is the first listed child with the next name.
- The recursive walk is proved equal to a linear scan over a reference sequence `SubtreeVisits`. This sequence lists the whole subtree in pre-order with sibling order equal to listing order, and gives each node the depth, path and entity the walk would visit it with. The scan stops right after the first file the visitor rejects. The calls the visitor receives are the scanned prefix. The accumulator is the entities of that prefix. The walk goes through exactly when the scan does.
- A visitor is `Option<(history, visit) -> bool>`. A function that also sees the calls made before the current one can stand for any deterministic stateful callback. `None` is Go's nil visitor.

Where the code differs from what its comments or a reader might expect, the model follows the code:

- `FileList` never returns an error. A failed request yields an empty list and an empty next marker (`aliyunpan/file_directory.go:246-256`). As a result:
  - the error branches of `FileListGetAll` (`:503-505`, `:514-515`) and `recurseList` (`:460-465`) are not reachable;
  - a failed listing during path resolution reads as an empty folder and is reported as "file not found".
- In `recurseList`, the visitor's answer for a folder is overwritten by the result of walking into it (`:472-474`). So only answers for non-folders can stop the walk. `Walker.FolderAnswersIgnored` states this.
- The visitor's answer for the depth-0 call is not looked at (`:436`, `:441`).
- The starting folder is not part of the returned list (`:446-451`).
- Each child is appended to the accumulator before its visit (`:469`).
- A stopped walk returns nil, not the partial list.
- `ReplaceAll(_, "//", "/")` works left to right on non-overlapping matches, so `"///"` becomes `"//"`.

Termination is not guaranteed by the client. The model makes it explicit with two assumptions on the drive:

- `Listing.Paginates`: no non-empty next marker is handed out twice within a listing. Otherwise the page loop can cycle.
- `Listing.Acyclic`: a proof-only rank of every listed sub-folder is below the rank of its parent. Otherwise the walk can cycle. `Walker.FilesDirectoriesRecurseList` and the lemmas about its outcome need it only when the path names a folder (`Walker.WalkCovered`): a failed resolution or a file starts no walk.

Both are stronger than termination needs, so the model covers only drives that satisfy them (see "Left out").

## Model

| member | source | states |
|---|---|---|
| `Entities.RootEntity` | aliyunpan/file_directory.go:146-154 | The root sentinel is a folder with id "root", name and path "/", an empty parent id, size 0 and no timestamps; it is the drive root and not a file. |
| `Entities.CreateEntity` | aliyunpan/file_directory.go:156-180 | A nil record gives a nil entity and a record gives an entity; id, name, type and size are copied and the path starts out as the record's name. |
| `Entities.RecordRoundTrip` | aliyunpan/file_directory.go:160-179 | No field of the record is lost: the entity reads back as the very record it was built from, with path equal to name and both timestamps from server text. For the two timestamps this rests on the symbolic local-time rendering (see "Left out"). |
| `Entities.EntityRoundTrip` | aliyunpan/file_directory.go:160-179 | An entity is the image of some record exactly when its path is still its name and both timestamps were rendered from server text. For the two timestamps this rests on the symbolic local-time rendering (see "Left out"). |
| `Entities.FolderAndFileExclusive` | aliyunpan/file_directory.go:183-190 | No entity is both a folder and a file; an entity of any other type string is neither. |
| `FileLists.Wrap64` | aliyunpan/file_directory.go:213-219 | Go's `int64` addition: a value in range is kept, any value is kept modulo 2^64. |
| `FileLists.WrapAdd` | aliyunpan/file_directory.go:214-220 | Wrapping after every addition gives the same result as wrapping the exact total once. |
| `FileLists.SumSizesAppend` | aliyunpan/file_directory.go:214-220 | The exact size sum of a concatenation is the sum of the sums of the parts. |
| `FileLists.TotalSize` | aliyunpan/file_directory.go:212-222 | The result is the exact sum of the sizes of the non-nil entries (nil contributes nothing), wrapped to `int64`; it is the exact sum whenever that sum fits. |
| `FileLists.CountsPartition` | aliyunpan/file_directory.go:226-236 | Folders and non-folders partition the non-nil entries, whose number is at most the length. |
| `FileLists.Count` | aliyunpan/file_directory.go:225-238 | `directoryN` counts exactly the non-nil entries of type "folder", `fileN` every other non-nil entry whatever its type string, and together they count all non-nil entries. |
| `FileLists.PresentIsFullyCounted` | aliyunpan/file_directory.go:247-253 | In a list the client built itself there is no nil entry, so every entry is counted once. |
| `Listing.DefaultFileId` | aliyunpan/file_directory.go:268-271 | An empty file id becomes "root" and any other id is kept; the id sent is never empty. |
| `Listing.BuildListRequest` | aliyunpan/file_directory.go:268-297 | The request keeps the drive id; an empty parent id becomes "root"; a limit of 0 or less becomes 100 and a positive one is kept; empty order fields become "updated_at" and "DESC", others are kept; `all` is false; the marker key is present exactly when the marker is non-empty and then carries it. |
| `Listing.BuildListRequestIdempotent` | aliyunpan/file_directory.go:268-281 | Normalising a normalised request changes nothing, and leaving a field empty is the same as spelling out its default. |
| `Listing.FileInfoByIdRequest` | aliyunpan/file_directory.go:330-337 | The get request keeps the drive id and sends the file id, with the empty id standing for the drive root. |
| `Listing.GetAndListAgreeOnIds` | aliyunpan/file_directory.go:268-271 | Getting a file by id and listing it as a parent default the empty id the same way. |
| `Listing.MapItems` | aliyunpan/file_directory.go:247-253 | The item loop of `FileList`: at most one entity per item. Which entities, and in which order, is stated by `Listing.MapItemsFromItems`, `Listing.MapItemsWithoutNil` and `Listing.MapItemsAppend`. |
| `Listing.MapItemsFromItems` | aliyunpan/file_directory.go:247-253 | Every entity of a page comes from a non-nil item of that page. |
| `Listing.MapItemsWithoutNil` | aliyunpan/file_directory.go:247-253 | When a page has no nil item there is exactly one entity per item, each built from its item, in server order. |
| `Listing.MapItemsAppend` | aliyunpan/file_directory.go:247-253 | Mapping keeps server order: the entities of two consecutive stretches of items are those of the first followed by those of the second. |
| `Listing.FileList` | aliyunpan/file_directory.go:241-257 | A failed request gives an empty list and an empty next marker, never an error; a served page gives its next marker and the entities of its non-nil items in order. |
| `Listing.PageRunIsChain` | aliyunpan/file_directory.go:508-517 | The pages fetched start with the page asked for, each later page is the answer to the previous page's marker, every page but the last carries a marker and the last carries none. |
| `Listing.FileListGetAll` | aliyunpan/file_directory.go:488-519 | The loop returns exactly the concatenation, in order, of the entities of every page of the run, with a non-positive limit replaced by 100. |
| `Listing.FailedFirstPageListsNothing` | aliyunpan/file_directory.go:502-506 | When the first page fails the whole listing is empty and no error is reported. |
| `Listing.FailedPageEndsRun` | aliyunpan/file_directory.go:509-516 | A failed page is the last page of the run and contributes nothing; what was gathered before it is kept. |
| `Listing.RunListed` | aliyunpan/file_directory.go:488-519 | Every entity of a run comes from an item served for the folder that was asked for. |
| `Listing.Children` | aliyunpan/file_directory.go:455-459 | The listing the walk (and, at :404-408, the resolver) makes of a folder: all pages for the folder's id on the drive, with default order and limit. It is `Listing.ListAll`, so `Listing.FileListGetAll` and `Listing.PageRunIsChain` characterise it, and `Listing.ChildrenListed` says where its entities come from. |
| `Listing.ChildrenListed` | aliyunpan/file_directory.go:455-459 | Every child of a folder is the entity of an item served for that folder's own key: its id (or "root" for an empty id) on the drive asked for. |
| `Paths.JoinSplit` | aliyunpan/file_directory.go:377 | Joining the pieces of a split with "/" gives the string back. |
| `Paths.SplitJoin` | aliyunpan/file_directory.go:377 | Splitting the join of slash-free pieces gives the pieces back. |
| `Paths.CleanSegmentsOfNames` | aliyunpan/file_directory.go:369-371 | Cleaning leaves a sequence of plain names unchanged. |
| `Paths.Clean` | aliyunpan/file_directory.go:369-371 | A cleaned rooted path is rooted, and it is "/" exactly when no name survives cleaning. |
| `Paths.SplitClean` | aliyunpan/file_directory.go:370-377 | Splitting a cleaned path other than "/" gives the root's empty piece followed by exactly the surviving names. |
| `Paths.CleanIdempotent` | aliyunpan/file_directory.go:369-371 | Cleaning a cleaned path changes nothing. |
| `Paths.CollapseWithoutDoubleSlash` | aliyunpan/file_directory.go:468 | Collapsing "//" leaves a string without "//" unchanged. |
| `Paths.RootedJoinIsCleanDir` | aliyunpan/file_directory.go:369-371 | The root's slash followed by plain names joined by slashes, the shape `path.Clean` gives a rooted path, is a clean folder path: rooted, no "//", no trailing slash unless it is "/". |
| `Paths.ChildPathOfCleanParent` | aliyunpan/file_directory.go:468 | Below a clean parent, a child's path is the parent, one slash and the name, or "/" and the name below the root, and it is itself a clean folder path. |
| `Resolver.FirstNamed` | aliyunpan/file_directory.go:416-420 | The index found is that of a child with the name, and no earlier child has it; when no child has it, the index is past the end. |
| `Resolver.FirstNamedFinds` | aliyunpan/file_directory.go:416-420 | The entity taken at a level is exactly the first listed child with the segment's name. |
| `Resolver.GetFileInfoByPath` | aliyunpan/file_directory.go:389-422 | The only error is "file not found", and once every segment is consumed the entity resolved so far is the answer. |
| `Resolver.ResolveStep` | aliyunpan/file_directory.go:404-421 | Resolving one more segment takes the first listed child with that name and goes on from it, or fails with "file not found" when there is none, including when the folder lists nothing. |
| `Resolver.MissingSegmentNotFound` | aliyunpan/file_directory.go:413-421 | A segment that no listed child carries makes the resolution fail with "file not found". |
| `Resolver.ResolvedHasDescent` | aliyunpan/file_directory.go:389-422 | Resolving the remaining segments from an entity succeeds with `r` only when a chain of first matches leads from that entity down those segments to `r`. |
| `Resolver.DescentIsResolved` | aliyunpan/file_directory.go:389-422 | Conversely, resolution follows any chain of first matches down the remaining segments to its last entity. |
| `Resolver.CleanPath` | aliyunpan/file_directory.go:369-371 | The path resolved under stays rooted and is "/" exactly when no name survives cleaning. |
| `Resolver.FileInfoByPath` | aliyunpan/file_directory.go:361-387 | "" is read as "/", and both give the root sentinel; a path not starting with "/" is refused as not absolute; any other failure is "file not found"; a found entity carries the cleaned path. |
| `Resolver.FileInfoByPathFromRoot` | aliyunpan/file_directory.go:369-385 | A path other than the root is resolved from the root sentinel down its cleaned names, and a found entity gets the cleaned path. |
| `Resolver.FileInfoByPathIffDescent` | aliyunpan/file_directory.go:361-422 | A path other than the root resolves to `e` exactly when a chain of first matches leads from the root sentinel down the cleaned names, and `e` is its last entity with the cleaned path. |
| `Resolver.CleanPathIsCleanDir` | aliyunpan/file_directory.go:369-371 | The path an absolute path is resolved under is a clean folder path. |
| `Resolver.ResolvedPathIsClean` | aliyunpan/file_directory.go:361-387 | An entity found by path carries a clean folder path, so a walk starts from one and, through `Walker.WithChildPath`, gives plainly named children clean paths again. |
| `Resolver.FileInfoByPathCleanInvariant` | aliyunpan/file_directory.go:366-371 | Resolving a path and resolving its cleaned form give the same answer. |
| `Walker.WithChildPath` | aliyunpan/file_directory.go:468 | Only the child's path changes. Below a clean folder path, a plain name gets the folder's path, one slash and the name ("/" and the name below the root), and the result is again a clean folder path. |
| `Walker.ChildVisitsShape` | aliyunpan/file_directory.go:467-479 | In the visits of the children from one on, each followed by its subtree, all carry an entity and no error, none is shallower than the children's depth, and the first is the next child at that depth with its child path. |
| `Walker.SubtreeVisitsShape` | aliyunpan/file_directory.go:454-485 | The pre-order visits below a folder all carry an entity and no error, at the given depth or deeper. |
| `Walker.ScanStopsAtFirstRejection` | aliyunpan/file_directory.go:475-482 | The scan sees a prefix of the visits; it sees all of them when it goes through; otherwise it ends on a non-folder the visitor rejected, every earlier non-folder having been accepted. |
| `Walker.ScanAppend` | aliyunpan/file_directory.go:467-484 | Scanning one stretch of visits after another is scanning the first and, only if it went through, the second with the first added to the history. |
| `Walker.FolderChildIsScan` | aliyunpan/file_directory.go:470-482 | For a folder child: its visit, the walk into it and, if that went through, the remaining siblings, together act as the scan of the folder's visit, its subtree and the rest. |
| `Walker.FileChildIsScan` | aliyunpan/file_directory.go:475-482 | For a file child: its visit either stops the walk, with the file already in the accumulator, or the walk goes on with the siblings. |
| `Walker.RecurseList` | aliyunpan/file_directory.go:454-485 | `recurseList`: the shared accumulator and the visitor's calls are only ever appended to, and without a visitor the walk never stops and calls nothing. Its full behaviour is `Walker.RecurseListIsScan` and `Walker.RecurseListWithoutVisitor`. |
| `Walker.WalkChildren` | aliyunpan/file_directory.go:466-484 | The loop of `recurseList` over the listed children: it only appends to the accumulator and the calls, and never stops without a visitor. Its full behaviour is `Walker.WalkChildrenIsScan` and `Walker.WalkChildrenWithoutVisitor`. |
| `Walker.WalkChildrenIsScan` | aliyunpan/file_directory.go:466-484 | The loop over the children calls the visitor on exactly the scanned prefix of the pre-order visits, appends exactly their entities, and goes through exactly when the scan does. |
| `Walker.RecurseListIsScan` | aliyunpan/file_directory.go:454-485 | Walking a folder is the scan of its pre-order subtree visits. |
| `Walker.WalkChildrenWithoutVisitor` | aliyunpan/file_directory.go:466-484 | Without a visitor the loop never stops early and collects every entity of the pre-order visits, calling nothing. |
| `Walker.RecurseListWithoutVisitor` | aliyunpan/file_directory.go:454-485 | Without a visitor walking a folder collects its whole pre-order subtree. |
| `Walker.FilesDirectoriesRecurseList` | aliyunpan/file_directory.go:425-452 | A path that does not resolve gives nil; a file gives the list holding just that file. |
| `Walker.RecurseListOutcome` | aliyunpan/file_directory.go:425-452 | A resolution error is reported once at depth 0 with no entity and gives nil; a file is reported once at depth 0 and returned alone; a folder is reported at depth 0, then its subtree from depth 1 in pre-order up to the first file the visitor rejects, and the result is the whole subtree without the folder itself, or nil when a file was rejected. |
| `Walker.RecurseListWithoutVisitorOutcome` | aliyunpan/file_directory.go:425-452 | Without a visitor the result is the whole subtree of a folder or the file itself, and nil only when the path does not resolve. |
| `Walker.ScanIgnoresFolderAnswers` | aliyunpan/file_directory.go:470-479 | Two visitors that answer alike for every non-folder scan error-free visits alike. |
| `Walker.FolderAnswersIgnored` | aliyunpan/file_directory.go:433-474 | Visitors that answer alike for non-folders give the same outcome, whatever they answer for folders, the starting folder included. |

## Left out

- HTTP transport, the authorization header, the common headers and logging are not modelled: they are I/O. The server is the `Listing.Drive` oracle instead.
- The fixed extras of the listing body (`url_expire_sec`, the thumbnail and image processing strings, `fields`) are left out because they are constants the client does not read back.
- JSON decoding and the parsing of server error bodies are not modelled: they are library code. Every way a request can fail is one `Failed` response.
- The timestamp conversion of the server's UTC text to local time is symbolic (`Entities.Timestamp.LocalFormatOf`), because it depends on the host's time zone and its code is not part of this model.
- Entities.RecordRoundTrip: for the two timestamps it assumes that the local-time rendering keeps its source text, so that two different server times never render alike. The other fields are copied verbatim and round-trip without any assumption.
- Entities.EntityRoundTrip: it assumes that the local-time rendering is injective and that its result always differs from the empty text of an entity not built from a record (the root sentinel). The rendering of an empty or unparsable server time could break the second assumption.
- The exchange part of `FileInfoById` is left out because it is a network call. Only the request it builds is modelled (`Listing.FileInfoByIdRequest`).
- `FileEntity.String` is left out because it is display text only.
- Order field, order direction and limit do not influence the oracle's answers, because the server's sorting and page sizing are not part of the client.
- The write-back of the defaulted order fields into the caller's parameter record (`:276-281`) is not modelled, because `Listing.FileList` takes its parameter by value. An outside caller of `FileList` would see its record's empty order fields replaced by the defaults. Inside the modelled code, `FileListGetAll` passes its one internal record for every page (`:502`, `:510-511`). After the first page that record carries the defaults, which changes no later request because normalising is idempotent (`Listing.BuildListRequestIdempotent`).
- Wire fields the client never reads are not part of `Entities.Record`.
- `path.Clean` is modelled only for rooted paths, because the client cleans only after checking that the path is absolute.
- The apierror codes and message texts are reduced to `Resolver.ApiError`, i.e. `PathNotAbsolute` and `FileNotFound`.
- Non-terminating behaviour is not modelled: the model covers only drives satisfying `Listing.Paginates` and, for a walk that starts at a folder, `Listing.Acyclic` (together `Walker.WalkCovered`). Outside them the client may loop forever, but need not: a marker repeated only after the run has ended, or a folder cycle the walk never reaches or reaches only after the visitor stopped it, still lets the client stop. Such drives are not covered.
- The visitor is assumed not to modify the entity it is handed. In the client it receives the very `*FileEntity` held in the accumulator (`:469-477`), and for a folder that entity is then listed and used for the children's paths; for the starting entity the same holds at `:436-441`. A visitor that changes the entity would change the result and the walk, and the pure `Walker.Visitor` cannot express that.
- FileLists.Count: the counts are unbounded naturals instead of `int64`, because a list long enough to overflow them cannot be held in memory.
- Walker.FilesDirectoriesRecurseList: its own contract states only the error and file cases. The folder case is stated by `Walker.RecurseListOutcome` and `Walker.RecurseListWithoutVisitorOutcome`.
- Resolver.GetFileInfoByPath: its own contract states only the error kind and the end of the path. Success is characterised by `Resolver.ResolvedHasDescent` and `Resolver.DescentIsResolved`.
