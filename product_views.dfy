/** The selection logic of the `products` app's views: the storefront list
    (`ProductListView`), the autocomplete action and the default order of
    the read-only product API (`ProductViewSet`). */
module ProductViews {
  import opened Wrappers
  import opened Text
  import opened Seqs
  import opened Pagination
  import opened ProductModels

  /** `ProductListView.paginate_by`. */
  const ListPageSize: nat := 12

  /** Autocomplete answers only queries of at least this many characters. */
  const AutocompleteMinLength: nat := 2

  /** Autocomplete returns at most this many suggestions. */
  const AutocompleteLimit: nat := 10

  /** The product's category has the given slug (the `category__slug`
      lookup, an inner join on the category table). */
  predicate InCategory(categories: CategoryTable, p: Product, slug: string) {
    p.category in categories && categories[p.category].slug == slug
  }

  /** The storefront free-text match: model code, description or series
      contains the query, ignoring case. */
  predicate MatchesQuery(p: Product, q: string) {
    IContains(p.modelCode, q) || IContains(p.description, q) || IContains(p.series, q)
  }

  /** A product appears in the storefront list for these parameters. */
  predicate Listed(categories: CategoryTable, category: Option<string>, q: Option<string>, p: Product) {
    && p.isActive
    && (Supplied(category) ==> InCategory(categories, p, category.value))
    && (Supplied(q) ==> MatchesQuery(p, q.value))
  }

  /** The storefront list as a specification: the listed products, in table
      order. */
  function Listing(products: seq<Product>, categories: CategoryTable, category: Option<string>, q: Option<string>): seq<Product> {
    Where(products, (p: Product) => Listed(categories, category, q, p))
  }

  /** `ProductListView.get_queryset`: start from the active products and
      narrow the query set by category slug, then by the search query, each
      only when its parameter is supplied. */
  method GetQueryset(products: seq<Product>, categories: CategoryTable, category: Option<string>, q: Option<string>)
    returns (qs: seq<Product>)
    ensures qs == Listing(products, categories, category, q)
    ensures IsSubsequence(qs, products)
    ensures forall p :: p in qs ==> p.isActive
    ensures Supplied(category) ==> forall p :: p in qs ==> InCategory(categories, p, category.value)
    ensures Supplied(q) ==> forall p :: p in qs ==> MatchesQuery(p, q.value)
    ensures forall p :: p in products && Listed(categories, category, q, p) ==> p in qs
  {
    ghost var cat: Product -> bool := (p: Product) => p.isActive && (Supplied(category) ==> InCategory(categories, p, category.value));
    qs := Where(products, (p: Product) => p.isActive);
    if Supplied(category) {
      var slug := category.value;
      WhereWhere(products, (p: Product) => p.isActive, (p: Product) => InCategory(categories, p, slug), cat);
      qs := Where(qs, (p: Product) => InCategory(categories, p, slug));
    } else {
      WhereCongruent(products, (p: Product) => p.isActive, cat);
    }
    assert qs == Where(products, cat);
    if Supplied(q) {
      var term := q.value;
      WhereWhere(products, cat, (p: Product) => MatchesQuery(p, term), (p: Product) => Listed(categories, category, q, p));
      qs := Where(qs, (p: Product) => MatchesQuery(p, term));
    } else {
      WhereCongruent(products, cat, (p: Product) => Listed(categories, category, q, p));
    }
    forall p | p in qs ensures Listed(categories, category, q, p) {
      WhereMembers(products, (p: Product) => Listed(categories, category, q, p), p);
    }
  }

  /** An absent and an empty parameter both leave the list un-narrowed:
      without a category slug and a query the list is every active product. */
  lemma ListingWithoutParameters(products: seq<Product>, categories: CategoryTable, category: Option<string>, q: Option<string>)
    requires !Supplied(category) && !Supplied(q)
    ensures Listing(products, categories, category, q) == Where(products, (p: Product) => p.isActive)
  {
    WhereCongruent(products, (p: Product) => Listed(categories, category, q, p), (p: Product) => p.isActive);
  }

  /** A storefront page: the list cut into pages of `ListPageSize`. */
  function ListPage(products: seq<Product>, categories: CategoryTable, category: Option<string>, q: Option<string>, page: int)
    : (r: PageResult<Product>)
    ensures r.Page? ==> |r.items| <= ListPageSize
    ensures r.Page? ==> forall p :: p in r.items ==> Listed(categories, category, q, p)
    ensures r.Page? <==> 1 <= page <= NumPages(|Listing(products, categories, category, q)|, ListPageSize)
  {
    var all := Listing(products, categories, category, q);
    var r := Paginate(all, page, ListPageSize);
    assert r.Page? ==> forall p :: p in r.items ==> p in all by {
      if r.Page? {
        PaginateSlice(all, page, ListPageSize);
      }
    }
    r
  }

  /** An autocomplete suggestion. */
  datatype Suggestion = Suggestion(value: string, display: string)

  /** The suggestion built from one product: its model code, and the model
      code and series as the label (`display`, since `label` is a Dafny keyword). */
  function SuggestionFor(p: Product): (s: Suggestion)
    ensures s.value == ProductStr(p)
    ensures s.display == ProductStr(p) + " - " + p.series
  {
    Suggestion(p.modelCode, p.modelCode + " - " + p.series)
  }

  /** The label splits back into the suggestion's value, the separator and
      the product's series. */
  lemma SuggestionLabelSplits(p: Product)
    ensures var s := SuggestionFor(p);
            && |s.display| == |s.value| + 3 + |p.series|
            && s.display[..|s.value|] == s.value
            && s.display[|s.value|..|s.value| + 3] == " - "
            && s.display[|s.value| + 3..] == p.series
  {
  }

  /** The products behind the suggestions: nothing for a query shorter than
      two characters, else the first ten products (in table order) whose
      model code contains the query, ignoring case. */
  function AutocompleteMatches(products: seq<Product>, query: string): (m: seq<Product>)
    ensures |query| < AutocompleteMinLength ==> m == []
    ensures |m| <= AutocompleteLimit
    ensures IsSubsequence(m, products)
    ensures forall i :: 0 <= i < |m| ==> IContains(m[i].modelCode, query)
    ensures |query| >= AutocompleteMinLength && |m| < AutocompleteLimit ==>
              forall p :: p in products && IContains(p.modelCode, query) ==> p in m
    ensures |query| >= AutocompleteMinLength ==>
              var hits := Where(products, (p: Product) => IContains(p.modelCode, query));
              |m| == Min(AutocompleteLimit, |hits|) && m == hits[..|m|]
  {
    if |query| < AutocompleteMinLength then []
    else
      var hits := Where(products, (p: Product) => IContains(p.modelCode, query));
      var m := Take(hits, AutocompleteLimit);
      SubsequenceTransitive(m, hits, products);
      m
  }

  /** `ProductViewSet.search_autocomplete`: one suggestion per matching
      product, in the same order. */
  function SearchAutocomplete(products: seq<Product>, query: string): (r: seq<Suggestion>)
    ensures |query| < AutocompleteMinLength ==> r == []
    ensures |r| <= AutocompleteLimit
    ensures forall i :: 0 <= i < |r| ==> IContains(r[i].value, query)
    ensures var m := AutocompleteMatches(products, query);
            |r| == |m| && forall i :: 0 <= i < |r| ==> r[i] == SuggestionFor(m[i])
    ensures forall i :: 0 <= i < |r| ==>
              exists p :: p in products && r[i].value == p.modelCode && r[i].display == p.modelCode + " - " + p.series
  {
    var m := AutocompleteMatches(products, query);
    SubsequenceMembers(m, products);
    seq(|m|, i requires 0 <= i < |m| => SuggestionFor(m[i]))
  }

  /** A table of one product whose model code contains the query: that
      product is the one suggestion. */
  lemma SingleMatch(p: Product, query: string)
    requires |query| >= AutocompleteMinLength && IContains(p.modelCode, query)
    ensures SearchAutocomplete([p], query) == [SuggestionFor(p)]
  {
    assert Where([p], (q: Product) => IContains(q.modelCode, query)) == [p];
    assert AutocompleteMatches([p], query) == [p];
  }

  /** The seed model code contains "CB" and, ignoring case, "cb". */
  lemma SeedCodeMatches()
    ensures IContains("CBEG-LJN", "CB") && IContains("CBEG-LJN", "cb")
  {
    assert LowerStr("CBEG-LJN")[..2] == "cb";
    assert LowerStr("CB") == "cb" && LowerStr("cb") == "cb";
    assert OccursAt(LowerStr("CBEG-LJN"), "cb", 0);
    ContainsIffOccurs(LowerStr("CBEG-LJN"), "cb");
  }

  /** The seed product's label, spelled out. A lemma of its own rather than an
      assertion inside `SeedAutocomplete`, so that the string equality is
      proved apart from the autocomplete unfolding and that proof stays cheap. */
  lemma SeedLabel()
    ensures "CBEG-LJN" + " - " + "Series 1" == "CBEG-LJN - Series 1"
  {
  }

  /** The seed product is suggested for "CB" and, case-insensitively, for "cb". */
  lemma SeedAutocomplete(p: Product)
    requires p.modelCode == "CBEG-LJN" && p.series == "Series 1"
    ensures SearchAutocomplete([p], "CB") == [Suggestion("CBEG-LJN", "CBEG-LJN - Series 1")]
    ensures SearchAutocomplete([p], "cb") == [Suggestion("CBEG-LJN", "CBEG-LJN - Series 1")]
    ensures SearchAutocomplete([p], "C") == []
  {
    SeedCodeMatches();
    SeedLabel();
    SingleMatch(p, "CB");
    SingleMatch(p, "cb");
  }

  /** Rows in ascending model-code order, each next to the next. */
  predicate SortedByCode(ps: seq<Product>) {
    forall i :: 0 <= i < |ps| - 1 ==> StrLe(ps[i].modelCode, ps[i + 1].modelCode)
  }

  function InsertByCode(p: Product, sorted: seq<Product>): (r: seq<Product>)
    requires SortedByCode(sorted)
    ensures SortedByCode(r)
    ensures multiset(r) == multiset(sorted) + multiset{p}
    ensures r != [] && (r[0] == p || (sorted != [] && r[0] == sorted[0]))
  {
    if sorted == [] then [p]
    else if StrLe(p.modelCode, sorted[0].modelCode) then [p] + sorted
    else
      StrLeTotal(p.modelCode, sorted[0].modelCode);
      var rest := InsertByCode(p, sorted[1..]);
      assert sorted == [sorted[0]] + sorted[1..];
      [sorted[0]] + rest
  }

  /** The API's default order (`ordering = ['model_code']`): the same rows,
      ascending by model code. */
  function OrderByModelCode(ps: seq<Product>): (r: seq<Product>)
    ensures SortedByCode(r)
    ensures multiset(r) == multiset(ps)
  {
    if ps == [] then []
    else
      assert ps == [ps[0]] + ps[1..];
      InsertByCode(ps[0], OrderByModelCode(ps[1..]))
  }

  /** The order is total on the primary key: in the sorted list every model
      code is at most every later one, and with distinct model codes the
      codes strictly increase, so the order leaves no tie to break. */
  lemma {:induction false} OrderByModelCodeIsTotal(ps: seq<Product>, i: int, j: int)
    requires 0 <= i < j < |ps|
    requires SortedByCode(ps)
    ensures StrLe(ps[i].modelCode, ps[j].modelCode)
    ensures ps[i].modelCode != ps[j].modelCode ==> !StrLe(ps[j].modelCode, ps[i].modelCode)
    decreases j - i
  {
    if j > i + 1 {
      OrderByModelCodeIsTotal(ps, i + 1, j);
      StrLeTransitive(ps[i].modelCode, ps[i + 1].modelCode, ps[j].modelCode);
    }
    if StrLe(ps[j].modelCode, ps[i].modelCode) {
      StrLeAntisymmetric(ps[i].modelCode, ps[j].modelCode);
    }
  }
}
