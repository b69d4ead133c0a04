/** Aggregates over a `FileList`, a sequence of entities any of which may be nil:
    `TotalSize` and `Count`. */
module FileLists {
  import opened Wrappers
  import opened Entities

  type FileList = seq<Option<Entity>>

  const TwoTo63: int := 0x8000_0000_0000_0000
  const TwoTo64: int := 0x1_0000_0000_0000_0000

  predicate InInt64Range(x: int) {
    -TwoTo63 <= x < TwoTo63
  }

  /** Two's-complement wrap-around of Go's `int64` addition. */
  function Wrap64(x: int): (r: int64)
    ensures InInt64Range(x) ==> r as int == x
    ensures (r as int - x) % TwoTo64 == 0
  {
    ((x + TwoTo63) % TwoTo64 - TwoTo63) as int64
  }

  /** Wrapping twice is wrapping once, whatever is added in between. */
  lemma WrapAdd(a: int, b: int)
    ensures Wrap64(Wrap64(a) as int + b) == Wrap64(a + b)
  {
    var w := Wrap64(a) as int;
    var q := (a + TwoTo63) / TwoTo64;
    assert w == a - TwoTo64 * q;
    ModShift(a + b + TwoTo63, q);
  }

  lemma ModShift(x: int, q: int)
    ensures (x - TwoTo64 * q) % TwoTo64 == x % TwoTo64
  {
  }

  /** The size an entry contributes: nothing for nil. */
  function SizeOf(e: Option<Entity>): int {
    if e.Some? then e.value.fileSize as int else 0
  }

  /** The exact, unbounded sum of the sizes of the non-nil entries. */
  function SumSizes(fl: FileList): int
    decreases |fl|
  {
    if |fl| == 0 then 0 else SumSizes(fl[..|fl| - 1]) + SizeOf(fl[|fl| - 1])
  }

  /** Sums split over concatenation. */
  lemma {:induction false} SumSizesAppend(a: FileList, b: FileList)
    ensures SumSizes(a + b) == SumSizes(a) + SumSizes(b)
    decreases |b|
  {
    if |b| == 0 {
      assert a + b == a;
    } else {
      var b' := b[..|b| - 1];
      assert (a + b)[..|a + b| - 1] == a + b';
      SumSizesAppend(a, b');
      assert SumSizes(b) == SumSizes(b') + SizeOf(b[|b| - 1]);
    }
  }

  /** `FileList.TotalSize`: the `int64` sum of the sizes, skipping nil. */
  method TotalSize(fl: FileList) returns (size: int64)
    ensures size == Wrap64(SumSizes(fl))
    ensures InInt64Range(SumSizes(fl)) ==> size as int == SumSizes(fl)
  {
    size := 0;
    for k := 0 to |fl|
      invariant size == Wrap64(SumSizes(fl[..k]))
    {
      assert fl[..k + 1][..k] == fl[..k];
      if fl[k].Some? {
        WrapAdd(SumSizes(fl[..k]), fl[k].value.fileSize as int);
        size := Wrap64(size as int + fl[k].value.fileSize as int);
      }
    }
    assert fl[..|fl|] == fl;
  }

  /** Number of non-nil entries. */
  function PresentCount(fl: FileList): nat
    decreases |fl|
  {
    if |fl| == 0 then 0
    else PresentCount(fl[..|fl| - 1]) + (if fl[|fl| - 1].Some? then 1 else 0)
  }

  /** Number of non-nil entries whose type is "folder". */
  function FolderCount(fl: FileList): nat
    decreases |fl|
  {
    if |fl| == 0 then 0
    else FolderCount(fl[..|fl| - 1])
         + (if fl[|fl| - 1].Some? && IsFolder(fl[|fl| - 1].value) then 1 else 0)
  }

  /** Number of non-nil entries whose type is anything but "folder". */
  function NonFolderCount(fl: FileList): nat
    decreases |fl|
  {
    if |fl| == 0 then 0
    else NonFolderCount(fl[..|fl| - 1])
         + (if fl[|fl| - 1].Some? && !IsFolder(fl[|fl| - 1].value) then 1 else 0)
  }

  /** Folders and non-folders partition the non-nil entries. */
  lemma {:induction false} CountsPartition(fl: FileList)
    ensures FolderCount(fl) + NonFolderCount(fl) == PresentCount(fl)
    ensures PresentCount(fl) <= |fl|
    decreases |fl|
  {
    if |fl| > 0 {
      CountsPartition(fl[..|fl| - 1]);
    }
  }

  /** `FileList.Count`: files and directories among the non-nil entries,
      where every non-folder entry, whatever its type string, is a file. */
  method Count(fl: FileList) returns (fileN: nat, directoryN: nat)
    ensures directoryN == FolderCount(fl)
    ensures fileN == NonFolderCount(fl)
    ensures fileN + directoryN == PresentCount(fl)
  {
    fileN, directoryN := 0, 0;
    for k := 0 to |fl|
      invariant directoryN == FolderCount(fl[..k])
      invariant fileN == NonFolderCount(fl[..k])
    {
      assert fl[..k + 1][..k] == fl[..k];
      if fl[k].Some? {
        if IsFolder(fl[k].value) {
          directoryN := directoryN + 1;
        } else {
          fileN := fileN + 1;
        }
      }
    }
    assert fl[..|fl|] == fl;
    CountsPartition(fl);
  }

  /** A list the client produced itself: no nil entries. */
  function Present(es: seq<Entity>): (fl: FileList)
    ensures |fl| == |es|
    ensures forall k :: 0 <= k < |fl| ==> fl[k] == Some(es[k])
  {
    seq(|es|, k requires 0 <= k < |es| => Some(es[k]))
  }

  /** In a client-produced list every entry is counted, once. */
  lemma {:induction false} PresentIsFullyCounted(es: seq<Entity>)
    ensures PresentCount(Present(es)) == |es|
    decreases |es|
  {
    if |es| > 0 {
      assert Present(es)[..|es| - 1] == Present(es[..|es| - 1]);
      PresentIsFullyCounted(es[..|es| - 1]);
    }
  }
}
