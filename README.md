# Catalog selection logic of the valve product catalog

This project models how the hydraulic-valve catalog picks, orders and caps
the product records it shows. The catalog is a Django site with two app
variants: `products` and `valve_system/products`. The model covers:

- the storefront product list (`ProductListView.get_queryset`): active
  products only, optionally narrowed by a category slug and then by a
  case-insensitive text query; pages of 12;
- the autocomplete action of the product API (`search_autocomplete`): nothing
  for queries shorter than 2 characters, otherwise at most 10 products whose
  model code contains the query, each as a `{value, label}` suggestion;
- the API's default order, ascending by model code;
- the display strings of the catalog records (`__str__` of Category, Product,
  ProductAttachment and PerformanceCurve). The category breadcrumb walks the
  parent chain in a loop.
- the filter set of the valve variant (`ProductFilter`):
  - exact category, series and material filters;
  - a four-column OR search;
  - `>=` thresholds on maximum pressure and flow;
  - all combined with AND;
- the valve home page (the first 6 root categories and the 4 newest
  products), the list page size of 12, and the not-found guards of the
  document download.

Query sets are sequences of rows in table order. A `.filter(...)` is `Where`,
which keeps the satisfying rows in order; slicing is `Take`; `order_by` is a
stable insertion sort. Django's paginator is `Paginate`. Request parameters
are `Option` values. A text parameter that is present but empty counts as
absent (`Supplied`), as in `if category_slug:` and in django-filter.

Files:

- `text.dfy`: ASCII case folding, substring search, `icontains`, Python's
  `str.join`, reversal and code-point string order.
- `seqs.dfy`: `Option`, and query-set operations on sequences (`Where`,
  `Take`, the subsequence relation).
- `pagination.dfy`: Django's `Paginator` with its default options, and
  `ListView`'s page lookup.
- `product_models.dfy`: the `products` models and their display strings.
- `product_views.dfy`: the `products` views.
- `valve_filters.dfy`: the valve filter set.
- `valve_views.dfy`: the valve views and the download guard.

Behaviour the code has that a reader might expect otherwise:

- **Page past the end.** A page number past the last page is not an empty
  page. Django's `ListView` answers it with 404, so `Paginate` returns
  `PageNotFound` for any page number outside `1..NumPages`. An empty
  result still has exactly one (empty) first page.
- **Cyclic categories.** `Category.__str__` has no guard against a cyclic
  parent chain and loops forever on one. See Findings.
- **Ordering.** Recent products are ordered by `created_at` alone, with no
  tie-breaker. The storefront list has no order at all. Neither has the
  autocomplete's `Product.objects.filter(...)[:10]` (products/views.py:33):
  `Product` declares no default ordering, and the viewset's `ordering` does
  not apply inside the action, so which ten matches come back is not
  defined. The model keeps table order for ties, for the unordered list and
  for the autocomplete's first ten matches.
- **Autocomplete matching.** Autocomplete matches a substring of the model
  code anywhere, not only a prefix.

## Model

| member | source | states |
|---|---|---|
| `ProductModels.CategoryStr` | products/models.py:22-28 | The loop walks up the parent chain of an acyclic category and returns the breadcrumb: its ancestors' names root first, then its own name, joined by " -> ". The loop ends because the number of ancestors left to visit decreases. |
| `ProductModels.RootBreadcrumb` | products/models.py:23-28 | A category without a parent is acyclic, has depth 0 and displays as exactly its own name. |
| `ProductModels.SegmentsShape` | products/models.py:24-28 | The breadcrumb has depth + 1 segments. The first names a root category, the last is the category's own name, and segment i names the ancestor i levels below the root. |
| `ProductModels.ChildBreadcrumb` | products/models.py:25-28 | A child's breadcrumb is its parent's breadcrumb, " -> ", then its own name, and its depth is one more than its parent's. |
| `ProductModels.ThreeLevelBreadcrumb` | products/models.py:22-28 | In any three-level chain of distinct categories, the leaf displays as "top -> mid -> leaf" and has depth 2. |
| `ProductModels.SeedBreadcrumbs` | products/management/commands/seed.py:15-18 | In the seed's category tree, the roots "Load Holding" and "Flow Control" display as their own names. Their child "Counterbalance" has depth 1 and displays as "Load Holding -> Counterbalance". |
| `ProductModels.ChainSteps` | products/models.py:25-27 | Once the parent chain reaches a root within some number of steps, allowing more steps changes neither that fact nor the chain visited. |
| `ProductModels.SelfParentCycles` | products/models.py:7-14 | A category that is its own parent, which the self-referencing foreign key allows, never reaches a root. After any number of loop iterations, `k` still refers to that category. |
| `ProductModels.GuardedCategoryStr` | products/models.py:22-28 | The breadcrumb with a depth guard. It always terminates and returns the string with its segments: the string is the segments joined by " -> ", there are at most as many segments as the table has categories, each segment is a category's name, and the last is the category's own. On every acyclic chain the segments and string equal those of `CategoryStr`'s specification. A category may be named more than once on a cyclic chain. |
| `ProductModels.ProductStrIdentifies` | products/models.py:58-59 | A product displays as its model code, so two products display alike exactly when they share the primary key. |
| `ProductModels.FileTypeDisplay` | products/models.py:62-67 | A stored choice value displays as the label paired with it in the four choices (datasheet, drawing, manual, other). A value outside the choices displays as itself. |
| `ProductModels.FileTypeDisplayInjective` | products/models.py:62-67 | Distinct attachment-type choices have distinct labels. |
| `ProductModels.NewAttachment` | products/models.py:71 | A new attachment's type is one of the choices, the datasheet one, and its title is blank. |
| `ProductModels.OwnedLabels` | products/models.py:78-91 | Attachment and curve labels are the owning product's display string, " - ", then the type label or curve type. Two attachments of one product with different choice types get different labels. |
| `ProductViews.GetQueryset` | products/views.py:48-64 | The successive narrowing returns the listing specification: a subsequence of the products, all active. When the slug is supplied, every row's category has that slug. When q is supplied, every row contains q, ignoring case, in its model code, description or series. No active product meeting the supplied conditions is dropped. |
| `ProductViews.ListingWithoutParameters` | products/views.py:52-57 | With the category and q both absent or empty, no narrowing happens: the list is every active product, in table order. |
| `ProductViews.ListPage` | products/views.py:46 | A storefront page has at most 12 rows, all of them listed. It exists exactly for page numbers 1 to the page count of the listing. |
| `ProductViews.SuggestionFor` | products/views.py:34 | A suggestion's value is the product's display string (its model code). Its label is the model code, " - ", then the series. |
| `ProductViews.SuggestionLabelSplits` | products/views.py:34 | The label splits back into the suggestion's value, the three characters " - " and the series. |
| `ProductViews.AutocompleteMatches` | products/views.py:29-33 | Queries shorter than 2 give no products. Otherwise the result is the first min(10, n) of the n products whose model code contains the query, ignoring case, in table order. Fewer than 10 means every such product is included. |
| `ProductViews.SearchAutocomplete` | products/views.py:28-35 | Returns no suggestions for queries shorter than 2 and at most 10 otherwise. Each value contains the query, ignoring case. Each suggestion comes from one matched product with value = model code and label = model code, " - ", series, in the matches' order. |
| `ProductViews.SeedAutocomplete` | products/management/commands/seed.py:21-24 | The seed product CBEG-LJN of Series 1 is suggested, with label "CBEG-LJN - Series 1", for "CB" and for "cb". "C" gives nothing. |
| `ProductViews.OrderByModelCode` | products/views.py:25 | The API's default order is a permutation of the rows, sorted ascending by model code. |
| `ProductViews.OrderByModelCodeIsTotal` | products/views.py:25 | In that order every model code is at most every later one. Distinct codes are strictly increasing, so no tie needs breaking. |
| `Pagination.Paginate` | products/views.py:46 | A page exists exactly for numbers 1 to the page count. It holds at most the page size, and every page but the last is full. When the list is not empty, no page is empty. |
| `Pagination.PaginateIsChunk` | products/views.py:46 | Page number n is the n-th chunk of the list cut into pieces of the page size. |
| `Pagination.ChunksConcatenate` | products/views.py:46 | The pages in order concatenate to exactly the list: no row is repeated or skipped. |
| `Pagination.NumPages` | products/views.py:46 | There is at least one page, and exactly one when there are no rows. The pages hold every row, and without orphans the last page is not empty. |
| `Text.ContainsIffOccurs` | products/views.py:59-61 | The substring test used by `icontains` holds exactly when the needle occurs at some index of the haystack. |
| `Text.IContainsIgnoresCase` | products/views.py:59-61 | Case-insensitive containment does not change when the haystack or the needle is case-folded first. |
| `Text.JoinSnoc` | products/models.py:28 | Joining one more part appends the separator and that part. |
| `ValveFilters.FilterSearch` | valve_system/products/filters.py:15-21 | Keeps exactly the rows whose name, series, description or application contains the term, ignoring case, each as many times as it occurs in the input. The result is a subsequence of the input. |
| `ValveFilters.MaxPressureMin` | valve_system/products/filters.py:8 | Keeps exactly the rows whose maximum pressure is set and at least the threshold, in order, each as many times as it occurs in the input. |
| `ValveFilters.MaxFlowMin` | valve_system/products/filters.py:9 | Keeps exactly the rows whose maximum flow is set and at least the threshold, in order, each as many times as it occurs in the input. |
| `ValveFilters.ApplyFilter` | valve_system/products/filters.py:6-13 | One filter of the set, applied when its parameter is supplied, keeps the rows meeting it. Category, series and material are exact equality. |
| `ValveFilters.ApplyAllIsConjunction` | valve_system/products/filters.py:6-13 | Applying filters one after another keeps exactly the rows meeting all of them, in table order. |
| `ValveFilters.FilterOrderIrrelevant` | valve_system/products/filters.py:6-13 | The order in which the filters are applied does not change the result. |
| `ValveFilters.MeetsAllFilters` | valve_system/products/filters.py:6-13 | Meeting each of the six filters is the same as the explicit conjunction `Matches`. |
| `ValveFilters.FilterQs` | valve_system/products/filters.py:5-21 | The filter set's query set is a subsequence of the rows. A row is in it exactly when it meets every supplied filter, and as many times as it occurs among the rows. |
| `ValveFilters.NoParametersNoFiltering` | valve_system/products/filters.py:5-13 | With no parameter supplied, every row is returned, in order. |
| `ValveFilters.NullPressureExcluded` | valve_system/products/filters.py:8 | A row without a pressure value never passes a pressure threshold. |
| `ValveFilters.PressureThresholdMonotone` | valve_system/products/filters.py:8 | Raising the pressure threshold never adds rows: the stricter result is a subsequence of the looser one. |
| `ValveViews.RootCategories` | valve_system/products/views.py:24 | The root categories are exactly the categories without a parent, in table order, each as many times as it occurs in the table. |
| `ValveViews.FeaturedCategories` | valve_system/products/views.py:11 | At most 6 featured categories, all roots. They are the first min(6, n) of the n roots, so all roots are shown when there are fewer than 6. |
| `ValveViews.OrderByNewest` | valve_system/products/views.py:12 | `order_by('-created_at')` is a permutation of the rows with creation times non-increasing. |
| `ValveViews.NewestFirstPairwise` | valve_system/products/views.py:12 | In a newest-first list, every row is at least as new as every later one. |
| `ValveViews.RecentProducts` | valve_system/products/views.py:12 | min(4, n) recent products, newest first, drawn from the rows. |
| `ValveViews.RecentAreNewest` | valve_system/products/views.py:12 | No row left out of the recent products is newer than a row shown. |
| `ValveViews.ValveListPage` | valve_system/products/views.py:15-20 | A list page holds at most 12 rows, each passing the filter set. It exists exactly for page numbers 1 to the page count of the filtered rows. |
| `ValveViews.Basename` | valve_system/products/views.py:46 | The base name has no '/', is a suffix of the path, and is preceded by '/' when shorter than the path. |
| `ValveViews.DownloadDocument` | valve_system/products/views.py:37-47 | Not found exactly when the document id is unknown or its file is missing from storage. Otherwise the file at the document's path is sent under its base name. |

## Left out

- The ORM:
  - Query sets are sequences in table order.
  - `select_related` and `prefetch_related` have no effect on the rows chosen, so they are not modelled.
  - The database collation is replaced by code-point order (`Text.StrLe`).
- Case folding is ASCII-only (`Text.Lower`). The database's Unicode case folding is not modelled. Chinese text folds to itself in both.
- Request parsing:
  - Parameters arrive already parsed: the valve category as a primary key, the thresholds as integers, the page as an integer.
  - A malformed value is not modelled. This covers the form validation and strict mode of django-filter, `page=last`, and non-numeric pages.
  - Decimal thresholds are not modelled.
- `ValveFilters.Valve` has category, material, maximum pressure and maximum flow columns. The filter set and the seed data use them, but the `CartridgeValve` class in valve_system/products/models.py lacks them. The numeric columns are nullable, so a row without a value never passes a threshold.
- valve_system/products/models.py defines no `Category` class, although valve_system/products/filters.py:3 and valve_system/products/views.py:3 import one from it. The model assumes the `Category` of the `products` app (products/models.py).
- The other collection queries:
  - The product API's client-side filters, search and ordering (`filterset_fields`, `search_fields`, `ordering_fields`, the `ordering` query parameter): only the default order is modelled.
  - `CategoryViewSet`'s name search.
  - The root categories put in the storefront's template context (products/views.py:68). This is the same selection as `ValveViews.RootCategories`.
- Presentation:
  - Templates, the HTMX fragment choice and serializers.
  - `HomeView` and `ProductDetailView`.
  - The `page_views.py` function views.
  - `ValveDocument.__str__` and `CartridgeValve.__str__`.
- Files and access:
  - File I/O and `FileResponse` are left out. The existence check of `download_document` is the membership of the path in a `storage` set.
  - `login_required`, admin registrations and URL routing.
- Data the framework manages or the model does not need:
  - Timestamps are integers; `auto_now` is not modelled.
  - Cascade deletes.
  - The JSON `specifications` and `data_points`, and image columns.
  - gettext translation. Labels are the source-language strings.
- Seed commands: only the category tree (`ProductModels.SeedCategories`) and the seed product's model code and series (the hypotheses of `ProductViews.SeedAutocomplete`) appear. The other columns, the performance curve and the valve variant's seed data are not modelled.
- `ProductModels.CategoryStr` requires an acyclic chain, where the original code has no such guard. Cyclic chains are covered by `SelfParentCycles` and `GuardedCategoryStr` (see Findings).

## Findings

| source | as written | input that shows it | evidently intended | confidence | as-written member | corrected member |
|---|---|---|---|---|---|---|
| products/models.py:22-28 | `Category.__str__` follows `parent` until it is None, with no guard. The self-referencing foreign key (products/models.py:7-14) lets a category be its own parent or ancestor. | A category whose parent is itself: the loop never exits, so any page or admin list showing it hangs. | The breadcrumb ends on every table, with at most as many segments as the table has categories, and is unchanged on acyclic chains. | medium, not executed | `ProductModels.SelfParentCycles` | `ProductModels.GuardedCategoryStr` |
