/** The catalog records of the `products` app: categories with an optional
    parent, products keyed by their model code, attachments and performance
    curves, and the display strings (`__str__`) of each. */
module ProductModels {
  import opened Wrappers
  import opened Text

  type CategoryId = int

  /** A category row; `parent` is a nullable reference to another row. */
  datatype Category = Category(name: string, slug: string, parent: Option<CategoryId>, description: string)

  /** The category table, keyed by primary key. */
  type CategoryTable = map<CategoryId, Category>

  /** Separator of the breadcrumb segments. */
  const BreadcrumbSeparator: string := " -> "

  /** Following parent references from `k` reaches a category without a
      parent within `steps` steps, every category on the way being in the
      table. */
  predicate ReachesRoot(table: CategoryTable, k: Option<CategoryId>, steps: nat)
    decreases steps
  {
    match k
    case None => true
    case Some(id) => steps > 0 && id in table && ReachesRoot(table, table[id].parent, steps - 1)
  }

  /** The parent chain of `id` is acyclic: it reaches a root within as many
      steps as there are categories (a chain that revisits a category never
      does). */
  predicate ChainAcyclic(table: CategoryTable, id: CategoryId) {
    id in table && ReachesRoot(table, Some(id), |table|)
  }

  /** The categories met when walking up from `k`, nearest first; the last
      one has no parent. */
  function Chain(table: CategoryTable, k: Option<CategoryId>, steps: nat): (r: seq<Category>)
    requires ReachesRoot(table, k, steps)
    ensures |r| <= steps
    ensures k.None? <==> r == []
    ensures k.Some? ==> r[0] == table[k.value]
    ensures r != [] ==> r[|r| - 1].parent.None? && r[|r| - 1] in table.Values
    decreases steps
  {
    match k
    case None => []
    case Some(id) => [table[id]] + Chain(table, table[id].parent, steps - 1)
  }

  /** More steps than needed do not change the walk. */
  lemma {:induction false} ChainSteps(table: CategoryTable, k: Option<CategoryId>, steps: nat, more: nat)
    requires ReachesRoot(table, k, steps) && steps <= more
    ensures ReachesRoot(table, k, more)
    ensures Chain(table, k, more) == Chain(table, k, steps)
    decreases steps
  {
    if k.Some? {
      ChainSteps(table, table[k.value].parent, steps - 1, more - 1);
    }
  }

  /** The category itself followed by its ancestors, nearest first. */
  function Lineage(table: CategoryTable, id: CategoryId): seq<Category>
    requires ChainAcyclic(table, id)
  {
    Chain(table, Some(id), |table|)
  }

  /** Number of ancestors of `id`. */
  function Depth(table: CategoryTable, id: CategoryId): nat
    requires ChainAcyclic(table, id)
  {
    |Lineage(table, id)| - 1
  }

  function Names(cs: seq<Category>): (r: seq<string>)
    ensures |r| == |cs|
    ensures forall i :: 0 <= i < |cs| ==> r[i] == cs[i].name
  {
    if cs == [] then [] else [cs[0].name] + Names(cs[1..])
  }

  /** The breadcrumb segments, root first. */
  function Segments(table: CategoryTable, id: CategoryId): seq<string>
    requires ChainAcyclic(table, id)
  {
    Reverse(Names(Lineage(table, id)))
  }

  /** The display string of a category: the names along its parent chain,
      root first, joined by " -> ". */
  function Breadcrumb(table: CategoryTable, id: CategoryId): string
    requires ChainAcyclic(table, id)
  {
    Join(Segments(table, id), BreadcrumbSeparator)
  }

  /** `Category.__str__`: collect the category's own name and then each
      ancestor's, walking up the parent chain, and join them reversed. The
      walk ends because the chain is acyclic; the number of ancestors still
      to visit decreases at every step. */
  method CategoryStr(table: CategoryTable, id: CategoryId) returns (s: string)
    requires ChainAcyclic(table, id)
    ensures s == Breadcrumb(table, id)
  {
    var fullPath := [table[id].name];
    var k := table[id].parent;
    ghost var steps: nat := |table| - 1;
    while k.Some?
      invariant ReachesRoot(table, k, steps)
      invariant fullPath + Names(Chain(table, k, steps)) == Names(Lineage(table, id))
      decreases |Chain(table, k, steps)|
    {
      WalkStep(table, fullPath, k, steps, Names(Lineage(table, id)));
      var ancestor := table[k.value];
      fullPath := fullPath + [ancestor.name];
      k := ancestor.parent;
      steps := steps - 1;
    }
    assert fullPath == Names(Lineage(table, id));
    s := Join(Reverse(fullPath), BreadcrumbSeparator);
  }

  /** A category without a parent is displayed as its own name alone. */
  lemma RootBreadcrumb(table: CategoryTable, id: CategoryId)
    requires id in table && table[id].parent.None?
    ensures ChainAcyclic(table, id)
    ensures Depth(table, id) == 0
    ensures Breadcrumb(table, id) == table[id].name
  {
    assert Lineage(table, id) == [table[id]];
  }

  /** The breadcrumb has one segment per ancestor plus one for the category;
      it starts with the name of a root category and ends with the
      category's own name; segment `i` names the category `i` levels below
      the root. */
  lemma SegmentsShape(table: CategoryTable, id: CategoryId)
    requires ChainAcyclic(table, id)
    ensures |Segments(table, id)| == Depth(table, id) + 1
    ensures Segments(table, id)[Depth(table, id)] == table[id].name
    ensures exists root :: root in table.Values && root.parent.None? && Segments(table, id)[0] == root.name
    ensures forall i :: 0 <= i <= Depth(table, id) ==> Segments(table, id)[i] == Lineage(table, id)[Depth(table, id) - i].name
  {
    SegmentsIndex(table, id);
    SegmentsFirst(table, id);
  }

  /** Segment `i` names the category `i` levels below the root. */
  lemma SegmentsIndex(table: CategoryTable, id: CategoryId)
    requires ChainAcyclic(table, id)
    ensures |Segments(table, id)| == Depth(table, id) + 1
    ensures forall i :: 0 <= i <= Depth(table, id) ==> Segments(table, id)[i] == Lineage(table, id)[Depth(table, id) - i].name
  {
    ReversedNames(Lineage(table, id));
  }

  /** The names of `cs` reversed: position `i` holds the name of the
      category `i` places from the end. */
  lemma ReversedNames(cs: seq<Category>)
    ensures |Reverse(Names(cs))| == |cs|
    ensures forall i :: 0 <= i < |cs| ==> Reverse(Names(cs))[i] == cs[|cs| - 1 - i].name
  {
  }

  /** The first segment names a root category. */
  lemma SegmentsFirst(table: CategoryTable, id: CategoryId)
    requires ChainAcyclic(table, id)
    ensures exists root :: root in table.Values && root.parent.None? && Segments(table, id)[0] == root.name
  {
    var line := Lineage(table, id);
    var names := Names(line);
    assert Segments(table, id) == Reverse(names);
    var root := line[|line| - 1];
    assert Segments(table, id)[0] == root.name;
  }

  /** A child's breadcrumb is its parent's breadcrumb, the separator and its
      own name; its depth is one more than its parent's. */
  lemma {:induction false} ChildBreadcrumb(table: CategoryTable, id: CategoryId)
    requires ChainAcyclic(table, id) && table[id].parent.Some?
    ensures ChainAcyclic(table, table[id].parent.value)
    ensures Depth(table, id) == Depth(table, table[id].parent.value) + 1
    ensures Breadcrumb(table, id)
            == Breadcrumb(table, table[id].parent.value) + BreadcrumbSeparator + table[id].name
  {
    var c := table[id];
    var p := c.parent.value;
    ChainSteps(table, c.parent, |table| - 1, |table|);
    var up := Lineage(table, p);
    assert Lineage(table, id) == [c] + up;
    assert Names([c] + up) == [c.name] + Names(up);
    assert Segments(table, id) == Segments(table, p) + [c.name];
    JoinSnoc(Segments(table, p), c.name, BreadcrumbSeparator);
  }

  /** Where the walk of `Category.__str__` stands after `n` iterations of
      its loop, starting at `k` (it stops early only at a root or at a
      reference missing from the table). */
  function WalkAfter(table: CategoryTable, k: Option<CategoryId>, n: nat): Option<CategoryId>
    decreases n
  {
    if n == 0 || k.None? || k.value !in table then k else WalkAfter(table, table[k.value].parent, n - 1)
  }

  /** A category that is its own parent never reaches a root, and the
      `while k is not None` loop of `Category.__str__` never exits on it:
      after any number of iterations `k` still refers to the category. */
  lemma {:induction false} SelfParentCycles(table: CategoryTable, id: CategoryId, n: nat)
    requires id in table && table[id].parent == Some(id)
    ensures !ReachesRoot(table, Some(id), n)
    ensures WalkAfter(table, Some(id), n) == Some(id)
    decreases n
  {
    if n > 0 {
      SelfParentCycles(table, id, n - 1);
    }
  }

  /** One step of the walk: the names from `k` up are its own name followed
      by the names from its parent up. */
  lemma ChainNamesStep(table: CategoryTable, k: Option<CategoryId>, steps: nat)
    requires ReachesRoot(table, k, steps) && k.Some?
    ensures k.value in table && steps > 0
    ensures ReachesRoot(table, table[k.value].parent, steps - 1)
    ensures Names(Chain(table, k, steps))
            == [table[k.value].name] + Names(Chain(table, table[k.value].parent, steps - 1))
  {
    var above := Chain(table, table[k.value].parent, steps - 1);
    assert Chain(table, k, steps) == [table[k.value]] + above;
    assert Names([table[k.value]] + above) == [table[k.value].name] + Names(above);
  }

  /** The loop of `Category.__str__` keeps the names collected so far
      followed by the names still ahead equal to the whole lineage's names. */
  lemma WalkStep(table: CategoryTable, fullPath: seq<string>, k: Option<CategoryId>, steps: nat, all: seq<string>)
    requires ReachesRoot(table, k, steps) && k.Some?
    requires fullPath + Names(Chain(table, k, steps)) == all
    ensures k.value in table && steps > 0
    ensures ReachesRoot(table, table[k.value].parent, steps - 1)
    ensures (fullPath + [table[k.value].name]) + Names(Chain(table, table[k.value].parent, steps - 1)) == all
  {
    ChainNamesStep(table, k, steps);
    var above := Names(Chain(table, table[k.value].parent, steps - 1));
    assert (fullPath + [table[k.value].name]) + above == fullPath + ([table[k.value].name] + above);
  }

  /** `Category.__str__` with a depth guard: the walk stops after as many
      steps as there are categories. It always terminates and returns the
      breadcrumb with its segments, root first. Every segment is the name of
      a category of the table, the last one the category's own, and there
      are at most as many segments as categories. On every acyclic chain
      the segments are those of `Breadcrumb`. */
  method GuardedCategoryStr(table: CategoryTable, id: CategoryId) returns (s: string, segments: seq<string>)
    requires id in table
    ensures s == Join(segments, BreadcrumbSeparator)
    ensures 1 <= |segments| <= |table|
    ensures segments[|segments| - 1] == table[id].name
    ensures forall i :: 0 <= i < |segments| ==> exists c :: c in table.Values && c.name == segments[i]
    ensures ChainAcyclic(table, id) ==> segments == Segments(table, id) && s == Breadcrumb(table, id)
  {
    ghost var acyclic := ChainAcyclic(table, id);
    var fullPath := [table[id].name];
    var k := table[id].parent;
    var budget: nat := |table| - 1;
    while k.Some? && k.value in table && budget > 0
      invariant |fullPath| + budget == |table|
      invariant fullPath[0] == table[id].name
      invariant forall i :: 0 <= i < |fullPath| ==> exists c :: c in table.Values && c.name == fullPath[i]
      invariant acyclic ==> ReachesRoot(table, k, budget)
      invariant acyclic ==> fullPath + Names(Chain(table, k, budget)) == Names(Lineage(table, id))
      decreases budget
    {
      if acyclic {
        WalkStep(table, fullPath, k, budget, Names(Lineage(table, id)));
      }
      var ancestor := table[k.value];
      fullPath := fullPath + [ancestor.name];
      k := ancestor.parent;
      budget := budget - 1;
    }
    if acyclic {
      assert fullPath == Names(Lineage(table, id));
    }
    segments := Reverse(fullPath);
    s := Join(segments, BreadcrumbSeparator);
  }

  /** A product row; the model code is its primary key. The JSON
      `specifications` and the image columns are not modelled. */
  datatype Product = Product(
    modelCode: string,
    series: string,
    category: CategoryId,
    description: string,
    cavity: string,
    material: string,
    isActive: bool,
    createdAt: int)

  /** `Product.__str__`. */
  function ProductStr(p: Product): string {
    p.modelCode
  }

  /** The display string identifies the product: it is the model code, so
      two products display alike exactly when they share the primary key. */
  lemma ProductStrIdentifies(p: Product, q: Product)
    ensures ProductStr(p) == p.modelCode
    ensures ProductStr(p) == ProductStr(q) <==> p.modelCode == q.modelCode
  {
  }

  /** The attachment kinds, stored value first and display label second. */
  const FileTypeChoices: seq<(string, string)> :=
    [("datasheet", "数据表"), ("drawing", "图纸"), ("manual", "手册"), ("other", "其他")]

  const DefaultFileType: string := "datasheet"

  predicate IsFileType(v: string) {
    exists i :: 0 <= i < |FileTypeChoices| && FileTypeChoices[i].0 == v
  }

  /** `get_file_type_display`: the label of a stored choice value; a value
      outside the choices is displayed as it is. */
  function FileTypeDisplay(v: string): (r: string)
    ensures IsFileType(v) ==> exists i :: 0 <= i < |FileTypeChoices| && FileTypeChoices[i] == (v, r)
    ensures !IsFileType(v) ==> r == v
  {
    assert FileTypeChoices[0] == ("datasheet", "数据表") && FileTypeChoices[1] == ("drawing", "图纸");
    assert FileTypeChoices[2] == ("manual", "手册") && FileTypeChoices[3] == ("other", "其他");
    if v == "datasheet" then "数据表"
    else if v == "drawing" then "图纸"
    else if v == "manual" then "手册"
    else if v == "other" then "其他"
    else v
  }

  /** Distinct choice values have distinct labels. */
  lemma FileTypeDisplayInjective(v: string, w: string)
    requires IsFileType(v) && IsFileType(w) && v != w
    ensures FileTypeDisplay(v) != FileTypeDisplay(w)
  {
  }

  /** An attachment row; `product` holds the owning product's primary key,
      its model code. */
  datatype ProductAttachment = ProductAttachment(product: string, file: string, fileType: string, title: string)

  /** A new attachment: its type defaults to the datasheet choice. */
  function NewAttachment(product: string, file: string): (a: ProductAttachment)
    ensures a.product == product && a.file == file && a.title == ""
    ensures IsFileType(a.fileType) && FileTypeDisplay(a.fileType) == "数据表"
  {
    assert FileTypeChoices[0].0 == DefaultFileType;
    ProductAttachment(product, file, DefaultFileType, "")
  }

  /** `ProductAttachment.__str__`: the product's model code and the
      attachment type's label. */
  function AttachmentStr(a: ProductAttachment): string {
    a.product + " - " + FileTypeDisplay(a.fileType)
  }

  /** A performance curve row; the `data_points` JSON is not modelled. */
  datatype PerformanceCurve = PerformanceCurve(product: string, curveType: string)

  /** `PerformanceCurve.__str__`: the product's model code and the curve type. */
  function CurveStr(c: PerformanceCurve): string {
    c.product + " - " + c.curveType
  }

  /** The attachment and curve labels start with the owning product's
      display string and " - "; two attachments of one product with
      different choice types are labelled differently. */
  lemma OwnedLabels(p: Product, a: ProductAttachment, b: ProductAttachment, c: PerformanceCurve)
    requires a.product == p.modelCode && b.product == p.modelCode && c.product == p.modelCode
    ensures AttachmentStr(a) == ProductStr(p) + " - " + FileTypeDisplay(a.fileType)
    ensures CurveStr(c) == ProductStr(p) + " - " + c.curveType
    ensures IsFileType(a.fileType) && IsFileType(b.fileType) && a.fileType != b.fileType
            ==> AttachmentStr(a) != AttachmentStr(b)
  {
    if IsFileType(a.fileType) && IsFileType(b.fileType) && a.fileType != b.fileType {
      FileTypeDisplayInjective(a.fileType, b.fileType);
      var n := |p.modelCode| + 3;
      assert AttachmentStr(a)[n..] == FileTypeDisplay(a.fileType);
      assert AttachmentStr(b)[n..] == FileTypeDisplay(b.fileType);
    }
  }

  /** A three-level chain, as in the seed hierarchy (Load Holding with
      Counterbalance below it) with one more level below Counterbalance, is
      displayed root first. */
  lemma ThreeLevelBreadcrumb(table: CategoryTable, leaf: CategoryId, mid: CategoryId, top: CategoryId)
    requires leaf in table && mid in table && top in table
    requires table[top].parent.None?
    requires table[mid].parent == Some(top)
    requires table[leaf].parent == Some(mid)
    requires leaf != mid && mid != top && top != leaf
    ensures ChainAcyclic(table, leaf)
    ensures Depth(table, leaf) == 2
    ensures Breadcrumb(table, leaf)
            == table[top].name + " -> " + table[mid].name + " -> " + table[leaf].name
  {
    assert {leaf, mid, top} <= table.Keys;
    assert |{leaf, mid, top}| == 3;
    CardinalityMonotone({leaf, mid, top}, table.Keys);
    assert ReachesRoot(table, Some(top), 1);
    assert ReachesRoot(table, Some(mid), 2);
    assert ReachesRoot(table, Some(leaf), 3);
    ChainSteps(table, Some(leaf), 3, |table|);
    ChainSteps(table, Some(mid), 2, |table|);
    RootBreadcrumb(table, top);
    ChildBreadcrumb(table, mid);
    ChildBreadcrumb(table, leaf);
  }

  /** The category tree the seed command creates: two roots, "Load
      Holding" and "Flow Control", and "Counterbalance" below "Load
      Holding". The keys stand for the primary keys the rows receive. */
  function SeedCategories(): CategoryTable {
    map[1 := Category("Load Holding", "load-holding", None, "Counterbalance valves"),
        2 := Category("Flow Control", "flow-control", None, "Flow control valves"),
        3 := Category("Counterbalance", "counterbalance", Some(1), "")]
  }

  /** The seed categories display as their own names, except the child,
      which displays below its parent. */
  lemma SeedBreadcrumbs()
    ensures ChainAcyclic(SeedCategories(), 1) && Breadcrumb(SeedCategories(), 1) == "Load Holding"
    ensures ChainAcyclic(SeedCategories(), 2) && Breadcrumb(SeedCategories(), 2) == "Flow Control"
    ensures ChainAcyclic(SeedCategories(), 3) && Depth(SeedCategories(), 3) == 1
    ensures Breadcrumb(SeedCategories(), 3) == "Load Holding -> Counterbalance"
  {
    var table := SeedCategories();
    RootBreadcrumb(table, 1);
    RootBreadcrumb(table, 2);
    assert ReachesRoot(table, Some(3), |table|) by {
      assert |table| == 3;
      assert ReachesRoot(table, Some(1), 2);
    }
    ChildBreadcrumb(table, 3);
    assert "Load Holding" + BreadcrumbSeparator + "Counterbalance" == "Load Holding -> Counterbalance";
  }

  lemma CardinalityMonotone<T>(a: set<T>, b: set<T>)
    requires a <= b
    ensures |a| <= |b|
  {
    assert b == a + (b - a);
  }
}
