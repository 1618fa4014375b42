/** The selections of the valve catalog's views: the home page's featured
    categories and recent products, the filtered list page, and the
    not-found guards of the document download. */
module ValveViews {
  import opened Seqs
  import opened Pagination
  import opened ProductModels
  import opened ValveFilters

  /** The home page shows this many root categories. */
  const FeaturedLimit: nat := 6

  /** The home page shows this many of the newest products. */
  const RecentLimit: nat := 4

  /** `ProductListView.paginate_by`. */
  const ListPageSize: nat := 12

  /** The categories without a parent, in table order. */
  function RootCategories(categories: seq<Category>): (r: seq<Category>)
    ensures IsSubsequence(r, categories)
    ensures forall c :: c in r <==> c in categories && c.parent.None?
    ensures forall c :: c in categories ==> multiset(r)[c] == if c.parent.None? then multiset(categories)[c] else 0
  {
    var r := Where(categories, (c: Category) => c.parent.None?);
    SubsequenceMembers(r, categories);
    r
  }

  /** The featured categories: the first six root categories. */
  function FeaturedCategories(categories: seq<Category>): (r: seq<Category>)
    ensures |r| <= FeaturedLimit
    ensures forall c :: c in r ==> c in categories && c.parent.None?
    ensures |r| == Min(FeaturedLimit, |RootCategories(categories)|)
    ensures r == RootCategories(categories)[..|r|]
    ensures |r| < FeaturedLimit ==> forall c :: c in categories && c.parent.None? ==> c in r
  {
    Take(RootCategories(categories), FeaturedLimit)
  }

  /** Rows in non-increasing creation time, each next to the next. */
  predicate NewestFirst(vs: seq<Valve>) {
    forall i :: 0 <= i < |vs| - 1 ==> vs[i].createdAt >= vs[i + 1].createdAt
  }

  function InsertByNewest(v: Valve, sorted: seq<Valve>): (r: seq<Valve>)
    requires NewestFirst(sorted)
    ensures NewestFirst(r)
    ensures multiset(r) == multiset(sorted) + multiset{v}
    ensures r != [] && (r[0] == v || (sorted != [] && r[0] == sorted[0]))
  {
    if sorted == [] || v.createdAt >= sorted[0].createdAt then [v] + sorted
    else
      assert sorted == [sorted[0]] + sorted[1..];
      [sorted[0]] + InsertByNewest(v, sorted[1..])
  }

  /** `order_by('-created_at')`: the same rows, newest first. */
  function OrderByNewest(vs: seq<Valve>): (r: seq<Valve>)
    ensures NewestFirst(r)
    ensures multiset(r) == multiset(vs)
  {
    if vs == [] then []
    else
      assert vs == [vs[0]] + vs[1..];
      InsertByNewest(vs[0], OrderByNewest(vs[1..]))
  }

  /** In a newest-first list every row is at least as new as every later one. */
  lemma {:induction false} NewestFirstPairwise(vs: seq<Valve>, i: int, j: int)
    requires NewestFirst(vs) && 0 <= i <= j < |vs|
    ensures vs[i].createdAt >= vs[j].createdAt
    decreases j - i
  {
    if i < j {
      NewestFirstPairwise(vs, i + 1, j);
    }
  }

  /** The recent products: the first four of the newest-first order. */
  function RecentProducts(valves: seq<Valve>): (r: seq<Valve>)
    ensures |r| == Min(RecentLimit, |valves|)
    ensures NewestFirst(r)
    ensures multiset(r) <= multiset(valves)
  {
    var sorted := OrderByNewest(valves);
    var r := Take(sorted, RecentLimit);
    SubsequenceMembers(r, sorted);
    r
  }

  /** The recent products are the newest in the table: no row left out is
      newer than any row shown. */
  lemma RecentAreNewest(valves: seq<Valve>, v: Valve, w: Valve)
    requires v in valves && v !in RecentProducts(valves)
    requires w in RecentProducts(valves)
    ensures w.createdAt >= v.createdAt
  {
    var sorted := OrderByNewest(valves);
    var r := RecentProducts(valves);
    assert v in multiset(sorted);
    var j :| 0 <= j < |sorted| && sorted[j] == v;
    var i :| 0 <= i < |r| && r[i] == w;
    assert r == sorted[..|r|];
    NewestFirstPairwise(sorted, i, j);
  }

  /** A list page: the filter set's rows cut into pages of twelve. */
  function ValveListPage(valves: seq<Valve>, params: FilterParams, page: int): (r: PageResult<Valve>)
    ensures r.Page? ==> |r.items| <= ListPageSize
    ensures r.Page? ==> forall v :: v in r.items ==> v in valves && Matches(params, v)
    ensures r.Page? <==> 1 <= page <= NumPages(|FilterQs(valves, params)|, ListPageSize)
  {
    var all := FilterQs(valves, params);
    var r := Paginate(all, page, ListPageSize);
    assert r.Page? ==> forall v :: v in r.items ==> v in all by {
      if r.Page? {
        PaginateSlice(all, page, ListPageSize);
      }
    }
    r
  }

  type DocumentId = int

  /** A document row; `file` is the stored file's path. */
  datatype ValveDocument = ValveDocument(title: string, file: string)

  /** The answer of the download view: the file as an attachment under its
      base name, or "not found". */
  datatype DownloadResponse = Attachment(path: string, filename: string) | NotFound

  /** `os.path.basename`: the part of the path after its last '/'. */
  function Basename(path: string): (b: string)
    ensures '/' !in b
    ensures |b| <= |path| && path[|path| - |b|..] == b
    ensures |b| < |path| ==> path[|path| - |b| - 1] == '/'
  {
    if path == [] || path[|path| - 1] == '/' then []
    else Basename(path[..|path| - 1]) + [path[|path| - 1]]
  }

  /** `download_document`: "not found" when the document id is unknown or
      its file is missing from storage (`storage` holds the paths that
      exist), else the file under its base name. */
  function DownloadDocument(documents: map<DocumentId, ValveDocument>, storage: set<string>, docId: DocumentId)
    : (r: DownloadResponse)
    ensures r.NotFound? <==> docId !in documents || documents[docId].file !in storage
    ensures r.Attachment? ==> r.path == documents[docId].file && r.path in storage
    ensures r.Attachment? ==> '/' !in r.filename && |r.filename| <= |r.path|
                              && r.path[|r.path| - |r.filename|..] == r.filename
    ensures r.Attachment? && |r.filename| < |r.path| ==> r.path[|r.path| - |r.filename| - 1] == '/'
  {
    if docId !in documents then NotFound
    else
      var path := documents[docId].file;
      if path !in storage then NotFound
      else Attachment(path, Basename(path))
  }
}
