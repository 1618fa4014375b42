/** Page-number pagination of a list view (`paginate_by`): Django's
    paginator with an empty first page allowed and no orphans, where a page
    number outside 1..page count is answered with "not found". */
module Pagination {
  import opened Seqs

  datatype PageResult<T> = Page(items: seq<T>) | PageNotFound

  /** The page count for `count` rows: the ceiling of `count / perPage`,
      and one (empty) page when there are no rows at all. */
  function NumPages(count: nat, perPage: nat): (n: nat)
    requires perPage > 0
    ensures n >= 1
    ensures count == 0 ==> n == 1
    ensures count <= n * perPage
    ensures count > 0 ==> (n - 1) * perPage < count
    decreases count
  {
    if count <= perPage then 1 else 1 + NumPages(count - perPage, perPage)
  }

  lemma MulMonotone(a: nat, b: nat, k: nat)
    requires a <= b
    ensures a * k <= b * k
  {
  }

  /** Page `number` (1-based) of `items`: the rows from
      `(number - 1) * perPage` up to `perPage` rows further. */
  function Paginate<T>(items: seq<T>, number: int, perPage: nat): (r: PageResult<T>)
    requires perPage > 0
    ensures r.Page? <==> 1 <= number <= NumPages(|items|, perPage)
    ensures r.Page? ==> |r.items| <= perPage
    ensures r.Page? && number < NumPages(|items|, perPage) ==> |r.items| == perPage
    ensures r.Page? && |items| > 0 ==> r.items != []
  {
    var n := NumPages(|items|, perPage);
    if 1 <= number <= n then
      MulMonotone(number - 1, n - 1, perPage);
      var bottom := (number - 1) * perPage;
      assert number < n ==> bottom + perPage <= |items| by {
        if number < n {
          MulMonotone(number, n - 1, perPage);
        }
      }
      var top := Min(bottom + perPage, |items|);
      Page(items[bottom..top])
    else
      PageNotFound
  }

  /** The page as a slice, with the arithmetic spelled out once. */
  lemma PaginateSlice<T>(items: seq<T>, number: int, perPage: nat)
    requires perPage > 0
    requires 1 <= number <= NumPages(|items|, perPage)
    ensures 0 <= (number - 1) * perPage <= Min((number - 1) * perPage + perPage, |items|) <= |items|
    ensures Paginate(items, number, perPage)
            == Page(items[(number - 1) * perPage..Min((number - 1) * perPage + perPage, |items|)])
  {
    MulMonotone(number - 1, NumPages(|items|, perPage) - 1, perPage);
  }

  /** Reference definition: the rows cut into consecutive chunks of
      `perPage`, the last one possibly shorter. */
  function Chunks<T>(items: seq<T>, perPage: nat): (r: seq<seq<T>>)
    requires perPage > 0
    ensures |r| == NumPages(|items|, perPage)
    decreases |items|
  {
    if |items| <= perPage then [items] else [items[..perPage]] + Chunks(items[perPage..], perPage)
  }

  function Flatten<T>(pages: seq<seq<T>>): seq<T> {
    if pages == [] then [] else pages[0] + Flatten(pages[1..])
  }

  /** Reading the chunks one after another gives back every row once, in
      order: no row is skipped or repeated across pages. */
  lemma {:induction false} ChunksConcatenate<T>(items: seq<T>, perPage: nat)
    requires perPage > 0
    ensures Flatten(Chunks(items, perPage)) == items
    decreases |items|
  {
    var c := Chunks(items, perPage);
    if |items| <= perPage {
      assert Flatten(c) == items + Flatten(c[1..]);
    } else {
      ChunksConcatenate(items[perPage..], perPage);
      assert c[1..] == Chunks(items[perPage..], perPage);
      assert items == items[..perPage] + items[perPage..];
    }
  }

  /** Where chunk `i` (0-based) starts: `i * perPage`, counted up one
      chunk at a time. */
  function Offset(i: nat, perPage: nat): nat {
    if i == 0 then 0 else Offset(i - 1, perPage) + perPage
  }

  lemma {:induction false} OffsetIsProduct(i: nat, perPage: nat)
    ensures Offset(i, perPage) == i * perPage
  {
    if i > 0 {
      OffsetIsProduct(i - 1, perPage);
    }
  }

  lemma SliceShift<T>(items: seq<T>, k: nat, b: int, t: int)
    requires k <= |items| && 0 <= b <= t <= |items| - k
    ensures items[k..][b..t] == items[b + k..t + k]
  {
  }

  lemma ChunksTail<T>(items: seq<T>, perPage: nat, i: int)
    requires perPage > 0 && 1 <= i < NumPages(|items|, perPage)
    ensures |items| > perPage
    ensures i - 1 < NumPages(|items| - perPage, perPage)
    ensures Chunks(items, perPage)[i] == Chunks(items[perPage..], perPage)[i - 1]
  {
  }

  /** Chunk `i` (0-based) is the slice from `Offset(i, perPage)` up to
      `perPage` rows further. */
  lemma {:induction false} ChunkSlice<T>(items: seq<T>, i: nat, perPage: nat)
    requires perPage > 0
    requires i < NumPages(|items|, perPage)
    ensures Offset(i, perPage) <= Min(Offset(i, perPage) + perPage, |items|) <= |items|
    ensures Chunks(items, perPage)[i] == items[Offset(i, perPage)..Min(Offset(i, perPage) + perPage, |items|)]
    decreases i
  {
    if i == 0 {
      FirstChunk(items, perPage);
    } else {
      ChunksTail(items, perPage, i);
      ChunkSlice(items[perPage..], i - 1, perPage);
      LaterChunk(items, i, perPage);
    }
  }

  lemma FirstChunk<T>(items: seq<T>, perPage: nat)
    requires perPage > 0
    ensures Chunks(items, perPage)[0] == items[Offset(0, perPage)..Min(Offset(0, perPage) + perPage, |items|)]
  {
  }

  /** Chunk `i` of the rows is chunk `i - 1` of the rows after the first
      chunk, moved by one chunk. */
  lemma LaterChunk<T>(items: seq<T>, i: nat, perPage: nat)
    requires perPage > 0 && 1 <= i && |items| > perPage
    requires i < |Chunks(items, perPage)| && i - 1 < |Chunks(items[perPage..], perPage)|
    requires Chunks(items, perPage)[i] == Chunks(items[perPage..], perPage)[i - 1]
    requires Offset(i - 1, perPage) <= Min(Offset(i - 1, perPage) + perPage, |items| - perPage)
    requires Chunks(items[perPage..], perPage)[i - 1]
             == items[perPage..][Offset(i - 1, perPage)..Min(Offset(i - 1, perPage) + perPage, |items| - perPage)]
    ensures Offset(i, perPage) <= Min(Offset(i, perPage) + perPage, |items|) <= |items|
    ensures Chunks(items, perPage)[i] == items[Offset(i, perPage)..Min(Offset(i, perPage) + perPage, |items|)]
  {
    var b := Offset(i - 1, perPage);
    SliceShift(items, perPage, b, Min(b + perPage, |items| - perPage));
  }

  /** Every page that exists is exactly the corresponding chunk. Together with
      ChunksConcatenate: the pages 1..NumPages read in order are the rows. */
  lemma PaginateIsChunk<T>(items: seq<T>, number: int, perPage: nat)
    requires perPage > 0
    requires 1 <= number <= NumPages(|items|, perPage)
    ensures Paginate(items, number, perPage) == Page(Chunks(items, perPage)[number - 1])
  {
    ChunkSlice(items, number - 1, perPage);
    OffsetIsProduct(number - 1, perPage);
    var bottom := Offset(number - 1, perPage);
    assert bottom == (number - 1) * perPage;
    PaginateSlice(items, number, perPage);
  }
}
