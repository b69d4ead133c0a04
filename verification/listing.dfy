/** The paginated lister. The remote drive is a deterministic oracle: for a
    (drive, parent folder) key it holds the responses to the successive pages
    of that folder's listing. `FileList` asks for one page, `FileListGetAll`
    follows the continuation markers until a page carries none. */
module Listing {
  import opened Wrappers
  import opened Entities

  const DefaultLimit: int := 100

  const OrderByUpdatedAt: string := "updated_at"
  const OrderDirectionDesc: string := "DESC"

  /** What a caller asks for. Empty strings and a non-positive limit mean
      "use the default". */
  datatype FileListParam = FileListParam(
    orderBy: string,
    orderDirection: string,
    driveId: string,
    parentFileId: string,
    limit: int,
    marker: string)

  /** The body of one listing request as it is posted. `marker` is `None`
      when the key is left out of the body. */
  datatype ListRequest = ListRequest(
    driveId: string,
    parentFileId: string,
    limit: int,
    all: bool,
    orderBy: string,
    orderDirection: string,
    marker: Option<string>)

  /** One page as the client returns it; an empty `nextMarker` means no more pages. */
  datatype FileListResult = FileListResult(fileList: seq<Entity>, nextMarker: string)

  // ---------------------------------------------------------------------------
  // Request normalisation
  // ---------------------------------------------------------------------------

  /** A file id as the client sends it: the empty id names the root folder. */
  function DefaultFileId(id: string): (r: string)
    ensures r != ""
    ensures id != "" ==> r == id
    ensures id == "" ==> r == RootFileId
  {
    if id == "" then RootFileId else id
  }

  /** The request `fileListReq` posts for a parameter record. */
  function BuildListRequest(p: FileListParam): (r: ListRequest)
    ensures r.driveId == p.driveId
    ensures r.parentFileId == DefaultFileId(p.parentFileId)
    ensures r.limit > 0
    ensures p.limit > 0 ==> r.limit == p.limit
    ensures p.limit <= 0 ==> r.limit == DefaultLimit
    ensures r.orderBy != "" && (p.orderBy != "" ==> r.orderBy == p.orderBy)
    ensures p.orderBy == "" ==> r.orderBy == OrderByUpdatedAt
    ensures r.orderDirection != "" && (p.orderDirection != "" ==> r.orderDirection == p.orderDirection)
    ensures p.orderDirection == "" ==> r.orderDirection == OrderDirectionDesc
    ensures !r.all
    ensures r.marker.Some? <==> p.marker != ""
    ensures r.marker.Some? ==> r.marker.value == p.marker
  {
    ListRequest(
      p.driveId,
      DefaultFileId(p.parentFileId),
      if p.limit <= 0 then DefaultLimit else p.limit,
      false,
      if p.orderBy == "" then OrderByUpdatedAt else p.orderBy,
      if p.orderDirection == "" then OrderDirectionDesc else p.orderDirection,
      if |p.marker| > 0 then Some(p.marker) else None)
  }

  /** The parameter record a request reads back as. */
  function ParamOf(r: ListRequest): FileListParam {
    FileListParam(r.orderBy, r.orderDirection, r.driveId, r.parentFileId, r.limit,
                  if r.marker.Some? then r.marker.value else "")
  }

  /** Normalising is idempotent, and a default spelled out gives the same
      request as the default left empty. */
  lemma BuildListRequestIdempotent(p: FileListParam)
    ensures BuildListRequest(ParamOf(BuildListRequest(p))) == BuildListRequest(p)
    ensures BuildListRequest(p.(parentFileId := "")) == BuildListRequest(p.(parentFileId := RootFileId))
    ensures BuildListRequest(p.(limit := 0)) == BuildListRequest(p.(limit := DefaultLimit))
    ensures BuildListRequest(p.(orderBy := "")) == BuildListRequest(p.(orderBy := OrderByUpdatedAt))
    ensures BuildListRequest(p.(orderDirection := "")) == BuildListRequest(p.(orderDirection := OrderDirectionDesc))
  {
  }

  /** The body `FileInfoById` posts. */
  datatype GetRequest = GetRequest(driveId: string, fileId: string)

  /** The request part of `FileInfoById`; the exchange itself is not modelled. */
  function FileInfoByIdRequest(driveId: string, fileId: string): (r: GetRequest)
    ensures r.driveId == driveId
    ensures r.fileId != "" && (fileId != "" ==> r.fileId == fileId)
    ensures fileId == "" ==> r.fileId == RootFileId
  {
    GetRequest(driveId, DefaultFileId(fileId))
  }

  /** Getting a file by id and listing it as a parent name the same folder. */
  lemma GetAndListAgreeOnIds(driveId: string, fileId: string)
    ensures FileInfoByIdRequest(driveId, fileId).fileId
            == BuildListRequest(ChildrenParam(driveId, fileId)).parentFileId
  {
  }

  // ---------------------------------------------------------------------------
  // The drive oracle
  // ---------------------------------------------------------------------------

  /** What the server answers to one listing request. */
  datatype Response = Failed | Page(items: seq<Option<Record>>, nextMarker: string)

  /** A folder listing is keyed by the drive and the (defaulted) parent id. */
  datatype FolderKey = FolderKey(driveId: string, folderId: string)

  /** The remote drive. `listings[k]` holds the responses to the pages of the
      listing of `k` in order. `height` is proof-only: a rank that every
      listed sub-folder's listing stays below (see `Acyclic`). */
  datatype Drive = Drive(listings: map<FolderKey, seq<Response>>, ghost height: map<FolderKey, nat>)

  function KeyOf(req: ListRequest): FolderKey {
    FolderKey(req.driveId, req.parentFileId)
  }

  predicate CarriesMarker(resp: Response, m: string) {
    resp.Page? && resp.nextMarker == m
  }

  /** The first page from `i` on whose continuation marker is `m`, or `|pages|`. */
  function FirstCarrying(pages: seq<Response>, m: string, i: nat): (j: nat)
    requires i <= |pages|
    ensures i <= j <= |pages|
    ensures forall k :: i <= k < j ==> !CarriesMarker(pages[k], m)
    ensures j < |pages| ==> CarriesMarker(pages[j], m)
    decreases |pages| - i
  {
    if i == |pages| then i
    else if CarriesMarker(pages[i], m) then i
    else FirstCarrying(pages, m, i + 1)
  }

  /** The page the server serves: the first without a marker, otherwise the
      one after the page that handed out the marker. */
  function PageIndex(pages: seq<Response>, marker: Option<string>): nat {
    if marker.None? then 0 else FirstCarrying(pages, marker.value, 0) + 1
  }

  /** The server's answer to one request: an unknown folder, an unknown
      marker or a page past the end is a failed request. */
  function Serve(d: Drive, req: ListRequest): (resp: Response)
    ensures resp.Page? ==> KeyOf(req) in d.listings
                           && PageIndex(d.listings[KeyOf(req)], req.marker) < |d.listings[KeyOf(req)]|
                           && resp == d.listings[KeyOf(req)][PageIndex(d.listings[KeyOf(req)], req.marker)]
  {
    var key := KeyOf(req);
    if key !in d.listings then Failed
    else
      var pages := d.listings[key];
      var i := PageIndex(pages, req.marker);
      if i < |pages| then pages[i] else Failed
  }

  /** Within one listing, no non-empty continuation marker is handed out twice.
      The client follows markers blindly, so without this its page loop need
      not end. */
  ghost predicate MarkersDistinct(pages: seq<Response>) {
    forall i, j :: 0 <= i < j < |pages| && pages[i].Page? && pages[i].nextMarker != "" ==>
      !CarriesMarker(pages[j], pages[i].nextMarker)
  }

  ghost predicate Paginates(d: Drive) {
    forall key :: key in d.listings ==> MarkersDistinct(d.listings[key])
  }

  /** Following page `i`'s marker leads to page `i + 1`. */
  lemma NextPageIndex(pages: seq<Response>, i: nat)
    requires MarkersDistinct(pages)
    requires i < |pages| && pages[i].Page? && pages[i].nextMarker != ""
    ensures PageIndex(pages, Some(pages[i].nextMarker)) == i + 1
  {
    var m := pages[i].nextMarker;
    assert forall k :: 0 <= k < i ==> !CarriesMarker(pages[k], m);
  }

  // ---------------------------------------------------------------------------
  // One page
  // ---------------------------------------------------------------------------

  /** One entity per non-nil item, in server order. */
  function MapItems(items: seq<Option<Record>>): (es: seq<Entity>)
    ensures |es| <= |items|
    decreases |items|
  {
    if |items| == 0 then []
    else (if items[0].Some? then [ToEntity(items[0].value)] else []) + MapItems(items[1..])
  }

  /** `e` is the entity of some non-nil item. */
  ghost predicate FromSomeItem(items: seq<Option<Record>>, e: Entity) {
    exists k :: 0 <= k < |items| && items[k].Some? && e == ToEntity(items[k].value)
  }

  /** Every entity comes from a non-nil item. */
  lemma {:induction false} MapItemsFromItems(items: seq<Option<Record>>)
    ensures forall e :: e in MapItems(items) ==> FromSomeItem(items, e)
    decreases |items|
  {
    if |items| > 0 {
      var head: seq<Entity> := if items[0].Some? then [ToEntity(items[0].value)] else [];
      var rest := MapItems(items[1..]);
      MapItemsFromItems(items[1..]);
      assert MapItems(items) == head + rest;
      forall e | e in MapItems(items)
        ensures FromSomeItem(items, e)
      {
        if e in head {
          assert items[0].Some? && e == ToEntity(items[0].value);
        } else {
          assert e in rest;
          assert FromSomeItem(items[1..], e);
          var k :| 0 <= k < |items[1..]| && items[1..][k].Some? && e == ToEntity(items[1..][k].value);
          assert items[k + 1] == items[1..][k];
        }
      }
    }
  }

  /** When no item is nil there is exactly one entity per item, in order. */
  lemma {:induction false} MapItemsWithoutNil(items: seq<Option<Record>>)
    requires forall k :: 0 <= k < |items| ==> items[k].Some?
    ensures |MapItems(items)| == |items|
    ensures forall k :: 0 <= k < |items| ==> MapItems(items)[k] == ToEntity(items[k].value)
    decreases |items|
  {
    if |items| > 0 {
      assert forall k :: 0 <= k < |items[1..]| ==> items[1..][k] == items[k + 1];
      MapItemsWithoutNil(items[1..]);
      var rest := MapItems(items[1..]);
      assert MapItems(items) == [ToEntity(items[0].value)] + rest;
      forall k | 0 <= k < |items|
        ensures MapItems(items)[k] == ToEntity(items[k].value)
      {
        if k > 0 {
          assert MapItems(items)[k] == rest[k - 1];
          assert items[1..][k - 1] == items[k];
        }
      }
    }
  }

  /** Mapping keeps the order of the items across a split. */
  lemma {:induction false} MapItemsAppend(a: seq<Option<Record>>, b: seq<Option<Record>>)
    ensures MapItems(a + b) == MapItems(a) + MapItems(b)
    decreases |a|
  {
    if |a| > 0 {
      assert (a + b)[1..] == a[1..] + b;
      MapItemsAppend(a[1..], b);
    } else {
      assert a + b == b;
    }
  }

  /** `FileList`: one request; a failed request is swallowed into an empty
      page without a continuation marker and no error is ever reported. */
  function FileList(d: Drive, p: FileListParam): (r: FileListResult)
    ensures Serve(d, BuildListRequest(p)).Failed? ==> r == FileListResult([], "")
    ensures Serve(d, BuildListRequest(p)).Page? ==>
              r.nextMarker == Serve(d, BuildListRequest(p)).nextMarker
              && r.fileList == MapItems(Serve(d, BuildListRequest(p)).items)
  {
    match Serve(d, BuildListRequest(p))
    case Failed => FileListResult([], "")
    case Page(items, next) => FileListResult(MapItems(items), next)
  }

  // ---------------------------------------------------------------------------
  // All pages
  // ---------------------------------------------------------------------------

  /** How many pages of the listing are left from the one `p` asks for. */
  function Remaining(d: Drive, p: FileListParam): nat {
    var req := BuildListRequest(p);
    if KeyOf(req) !in d.listings then 0
    else
      var pages := d.listings[KeyOf(req)];
      var i := PageIndex(pages, req.marker);
      if i <= |pages| then |pages| - i else 0
  }

  lemma RemainingDecreases(d: Drive, p: FileListParam)
    requires Paginates(d)
    requires FileList(d, p).nextMarker != ""
    ensures Remaining(d, p.(marker := FileList(d, p).nextMarker)) < Remaining(d, p)
  {
    var req := BuildListRequest(p);
    var pages := d.listings[KeyOf(req)];
    var i := PageIndex(pages, req.marker);
    NextPageIndex(pages, i);
  }

  /** The pages `FileListGetAll` fetches: from the page `p` asks for, each next
      page asked for with the marker of the previous one, up to and including
      the first page without a marker. */
  function PageRun(d: Drive, p: FileListParam): (run: seq<FileListResult>)
    requires Paginates(d)
    ensures |run| >= 1 && run[0] == FileList(d, p)
    decreases Remaining(d, p)
  {
    var r := FileList(d, p);
    if r.nextMarker == "" then [r]
    else
      RemainingDecreases(d, p);
      [r] + PageRun(d, p.(marker := r.nextMarker))
  }

  /** Only the last page of a run has no marker, and each later page is the
      answer to the marker of the page before it. */
  predicate IsRunFrom(d: Drive, p: FileListParam, run: seq<FileListResult>) {
    && |run| >= 1 && run[0] == FileList(d, p)
    && run[|run| - 1].nextMarker == ""
    && forall k :: 0 <= k < |run| - 1 ==>
         run[k].nextMarker != "" && run[k + 1] == FileList(d, p.(marker := run[k].nextMarker))
  }

  lemma {:induction false} PageRunIsChain(d: Drive, p: FileListParam)
    requires Paginates(d)
    ensures IsRunFrom(d, p, PageRun(d, p))
    decreases Remaining(d, p)
  {
    var r := FileList(d, p);
    var run := PageRun(d, p);
    if r.nextMarker != "" {
      var p' := p.(marker := r.nextMarker);
      RemainingDecreases(d, p);
      PageRunIsChain(d, p');
      var tail := PageRun(d, p');
      assert run == [r] + tail;
      forall k | 0 <= k < |run| - 1
        ensures run[k].nextMarker != "" && run[k + 1] == FileList(d, p.(marker := run[k].nextMarker))
      {
        if k > 0 {
          assert run[k] == tail[k - 1] && run[k + 1] == tail[k];
          assert p'.(marker := tail[k - 1].nextMarker) == p.(marker := tail[k - 1].nextMarker);
        }
      }
    }
  }

  /** The entities of a run of pages, page after page. */
  function Concat(run: seq<FileListResult>): seq<Entity>
    decreases |run|
  {
    if |run| == 0 then [] else run[0].fileList + Concat(run[1..])
  }

  lemma ConcatFrom(run: seq<FileListResult>, k: nat)
    requires k < |run|
    ensures Concat(run[k..]) == run[k].fileList + Concat(run[k + 1..])
  {
    assert run[k..][1..] == run[k + 1..];
  }

  function WithDefaultLimit(p: FileListParam): FileListParam {
    p.(limit := if p.limit <= 0 then DefaultLimit else p.limit)
  }

  /** Every entity of every page of the listing `p` asks for. */
  function ListAll(d: Drive, p: FileListParam): seq<Entity>
    requires Paginates(d)
  {
    Concat(PageRun(d, WithDefaultLimit(p)))
  }

  /** `FileListGetAll`: Go's page loop. It never reports an error: a failed
      page reads as a last, empty page. */
  method FileListGetAll(d: Drive, param: FileListParam) returns (fileList: seq<Entity>)
    requires Paginates(d)
    ensures fileList == ListAll(d, param)
  {
    var internal := WithDefaultLimit(param);
    ghost var k := 0;
    var result := FileList(d, internal);
    fileList := result.fileList;
    LoopStart(d, internal);
    while |result.nextMarker| > 0
      invariant Gathered(d, internal, k, result, fileList)
      decreases |PageRun(d, internal)| - k
    {
      // Only the marker of the internal parameters changes from page to page.
      var next := FileList(d, internal.(marker := result.nextMarker));
      LoopStep(d, internal, k, result, fileList);
      result := next;
      fileList := fileList + result.fileList;
      k := k + 1;
    }
    LoopEnd(d, internal, k, result, fileList);
  }

  /** The loop state after fetching page `k` of the run: `result` is that page
      and `acc`, followed by the later pages, gives all of the run. */
  ghost predicate Gathered(d: Drive, p: FileListParam, k: nat, result: FileListResult, acc: seq<Entity>)
  {
    && Paginates(d)
    && k < |PageRun(d, p)|
    && result == PageRun(d, p)[k]
    && acc + Concat(PageRun(d, p)[k + 1..]) == Concat(PageRun(d, p))
  }

  lemma LoopStart(d: Drive, p: FileListParam)
    requires Paginates(d)
    ensures Gathered(d, p, 0, FileList(d, p), FileList(d, p).fileList)
  {
    var run := PageRun(d, p);
    ConcatFrom(run, 0);
    assert run[0..] == run;
  }

  lemma LoopStep(d: Drive, p: FileListParam, k: nat, result: FileListResult, acc: seq<Entity>)
    requires Gathered(d, p, k, result, acc) && result.nextMarker != ""
    ensures k + 1 < |PageRun(d, p)|
    ensures var next := FileList(d, p.(marker := result.nextMarker));
            Gathered(d, p, k + 1, next, acc + next.fileList)
  {
    PageRunIsChain(d, p);
    ConcatStep(PageRun(d, p), k, acc);
  }

  lemma LoopEnd(d: Drive, p: FileListParam, k: nat, result: FileListResult, acc: seq<Entity>)
    requires Gathered(d, p, k, result, acc) && result.nextMarker == ""
    ensures acc == Concat(PageRun(d, p))
  {
    RunEnd(d, p, k);
    assert PageRun(d, p)[k + 1..] == [];
  }

  /** Only the last page of a run has no marker. */
  lemma RunEnd(d: Drive, p: FileListParam, k: nat)
    requires Paginates(d)
    requires k < |PageRun(d, p)| && PageRun(d, p)[k].nextMarker == ""
    ensures k == |PageRun(d, p)| - 1
  {
    PageRunIsChain(d, p);
  }

  lemma ConcatStep(run: seq<FileListResult>, k: nat, acc: seq<Entity>)
    requires k + 1 < |run|
    requires acc + Concat(run[k + 1..]) == Concat(run)
    ensures acc + run[k + 1].fileList + Concat(run[k + 2..]) == Concat(run)
  {
    var page, rest := run[k + 1].fileList, Concat(run[k + 2..]);
    ConcatFrom(run, k + 1);
    assert acc + (page + rest) == acc + page + rest;
  }

  /** A listing whose first page fails is empty. */
  lemma FailedFirstPageListsNothing(d: Drive, p: FileListParam)
    requires Paginates(d)
    requires Serve(d, BuildListRequest(WithDefaultLimit(p))).Failed?
    ensures ListAll(d, p) == []
  {
    var run := PageRun(d, WithDefaultLimit(p));
    assert run[0] == FileListResult([], "");
    assert |run| == 1;
    assert run[1..] == [];
    assert Concat(run) == run[0].fileList + Concat(run[1..]);
  }

  /** A failed page ends the run: nothing after it is fetched. */
  lemma FailedPageEndsRun(d: Drive, p: FileListParam, k: nat)
    requires Paginates(d)
    requires k < |PageRun(d, p)|
    requires k > 0 ==> Serve(d, BuildListRequest(p.(marker := PageRun(d, p)[k - 1].nextMarker))).Failed?
    requires k == 0 ==> Serve(d, BuildListRequest(p)).Failed?
    ensures k == |PageRun(d, p)| - 1
    ensures PageRun(d, p)[k] == FileListResult([], "")
  {
    PageRunIsChain(d, p);
    RunEnd(d, p, k);
  }

  // ---------------------------------------------------------------------------
  // Listing a folder entity
  // ---------------------------------------------------------------------------

  /** The parameters the resolver and the walk list a folder with. */
  function ChildrenParam(driveId: string, folderId: string): FileListParam {
    FileListParam("", "", driveId, folderId, 0, "")
  }

  /** The listing key of a folder entity on a drive. */
  function KeyFor(driveId: string, e: Entity): FolderKey {
    FolderKey(driveId, DefaultFileId(e.fileId))
  }

  /** The children of `e`, all pages. */
  function Children(d: Drive, driveId: string, e: Entity): seq<Entity>
    requires Paginates(d)
  {
    ListAll(d, ChildrenParam(driveId, e.fileId))
  }

  /** `e` is the entity of a non-nil item of some served page of `key`. */
  ghost predicate ListedUnder(d: Drive, key: FolderKey, e: Entity) {
    key in d.listings
    && exists j, k ::
         0 <= j < |d.listings[key]| && d.listings[key][j].Page?
         && 0 <= k < |d.listings[key][j].items| && d.listings[key][j].items[k].Some?
         && e == ToEntity(d.listings[key][j].items[k].value)
  }

  ghost function Level(d: Drive, key: FolderKey): nat {
    if key in d.height then d.height[key] else 0
  }

  /** Every folder listed under a key has a listing of lower rank, so the
      recursive walk ends. The client does not guard against cycles. */
  ghost predicate Acyclic(d: Drive) {
    forall key, j, k ::
      key in d.listings && 0 <= j < |d.listings[key]| && d.listings[key][j].Page?
      && 0 <= k < |d.listings[key][j].items| && d.listings[key][j].items[k].Some?
      && d.listings[key][j].items[k].value.fileType == FolderType
      ==> Level(d, FolderKey(key.driveId, DefaultFileId(d.listings[key][j].items[k].value.fileId))) < Level(d, key)
  }

  ghost predicate WellFormed(d: Drive) {
    Paginates(d) && Acyclic(d)
  }

  /** Every entity of one page comes from an item of the listing asked for. */
  lemma PageListed(d: Drive, p: FileListParam)
    ensures forall e :: e in FileList(d, p).fileList ==> ListedUnder(d, KeyOf(BuildListRequest(p)), e)
  {
    var req := BuildListRequest(p);
    var resp := Serve(d, req);
    if resp.Page? {
      var key := KeyOf(req);
      var j := PageIndex(d.listings[key], req.marker);
      MapItemsFromItems(resp.items);
      forall e | e in FileList(d, p).fileList
        ensures ListedUnder(d, key, e)
      {
        assert FromSomeItem(resp.items, e);
        var k :| 0 <= k < |resp.items| && resp.items[k].Some? && e == ToEntity(resp.items[k].value);
        assert d.listings[key][j].items[k] == resp.items[k];
      }
    }
  }

  /** Every entity of a run comes from an item of the listing asked for. */
  lemma {:induction false} RunListed(d: Drive, p: FileListParam)
    requires Paginates(d)
    ensures forall e :: e in Concat(PageRun(d, p)) ==> ListedUnder(d, KeyOf(BuildListRequest(p)), e)
    decreases Remaining(d, p)
  {
    var run := PageRun(d, p);
    var r := FileList(d, p);
    PageListed(d, p);
    if r.nextMarker != "" {
      var p' := p.(marker := r.nextMarker);
      RemainingDecreases(d, p);
      RunListed(d, p');
      assert run == [r] + PageRun(d, p');
      assert run[1..] == PageRun(d, p');
      assert KeyOf(BuildListRequest(p')) == KeyOf(BuildListRequest(p));
    } else {
      assert run[1..] == [];
    }
  }

  /** Every child of `e` is the entity of an item served for `e`'s own key
      (its id, or "root" for an empty id, on the drive asked for). */
  lemma ChildrenListed(d: Drive, driveId: string, e: Entity)
    requires Paginates(d)
    ensures forall c :: c in Children(d, driveId, e) ==> ListedUnder(d, KeyFor(driveId, e), c)
  {
    var p := WithDefaultLimit(ChildrenParam(driveId, e.fileId));
    RunListed(d, p);
    assert KeyOf(BuildListRequest(p)) == KeyFor(driveId, e);
  }

  /** The sub-folders of a folder rank below it. */
  lemma ChildrenRankLower(d: Drive, driveId: string, e: Entity)
    requires WellFormed(d)
    ensures forall c :: c in Children(d, driveId, e) && IsFolder(c) ==>
              Level(d, KeyFor(driveId, c)) < Level(d, KeyFor(driveId, e))
  {
    var key := KeyFor(driveId, e);
    ChildrenListed(d, driveId, e);
    forall c | c in Children(d, driveId, e) && IsFolder(c)
      ensures Level(d, KeyFor(driveId, c)) < Level(d, key)
    {
      assert ListedUnder(d, key, c);
      var j, k :| 0 <= j < |d.listings[key]| && d.listings[key][j].Page?
                  && 0 <= k < |d.listings[key][j].items| && d.listings[key][j].items[k].Some?
                  && c == ToEntity(d.listings[key][j].items[k].value);
    }
  }
}
