/**
 * The product catalog of the products page: one product per imported image, the
 * sorted category list for the filter buttons, the (key -> products) grouping, and
 * the ordered list of sections the page renders for the selected filter.
 */
module Catalog {
  import opened Wrappers
  import opened Text
  import opened PathClassifier
  import opened ProductInfo

  datatype Product = Product(
    image: string,
    filename: string,
    name: string,
    category: string,
    subcategory: Option<string>,
    title: string,
    description: string)

  /** One entry of the eager image import: the file path and the image reference. */
  datatype Asset = Asset(path: string, image: string)

  /** The last `/`-separated segment of a path: the image's file name. */
  function Filename(path: string): (f: string)
    ensures '/' !in f
  {
    var parts := Split(path, '/');
    parts[|parts| - 1]
  }

  /** The file name ends the path, right after a `/` unless it is the whole path. */
  lemma FilenameEndsPath(path: string)
    ensures var f := Filename(path);
      |f| <= |path| && path[|path| - |f|..] == f
      && (|f| == |path| || path[|path| - |f| - 1] == '/')
  {
    JoinSplit(path, '/');
    JoinLast(Split(path, '/'), '/');
  }

  lemma {:induction false} JoinLast(parts: seq<string>, sep: char)
    requires |parts| >= 1
    ensures var j := Join(parts, sep); var l := parts[|parts| - 1];
      |l| <= |j| && j[|j| - |l|..] == l && (|l| == |j| || j[|j| - |l| - 1] == sep)
    decreases |parts|
  {
    if |parts| > 1 {
      JoinLast(parts[1..], sep);
      var rest := Join(parts[1..], sep);
      var j := Join(parts, sep);
      assert j == (parts[0] + [sep]) + rest;
      var l := parts[|parts| - 1];
      assert j[|j| - |rest|..] == rest;
      assert j[|j| - |l|..] == rest[|rest| - |l|..];
      if |l| == |rest| {
        assert j[|j| - |l| - 1] == sep;
      } else {
        assert j[|j| - |l| - 1] == rest[|rest| - |l| - 1];
      }
    }
  }

  /** The product derived from one imported image. */
  function MakeProduct(a: Asset): (p: Product)
    ensures '/' !in p.filename
    ensures p.subcategory.Some? ==> p.category == "PLC" && p.subcategory.value in PlcSubcategories
    ensures p.description != ""
    ensures p.name == StripExtension(p.filename)
  {
    var filename := Filename(a.path);
    var c := ClassifyPath(a.path);
    var info := GenerateProductInfo(filename, c.category, c.subcategory);
    Product(a.image, filename, StripExtension(filename), c.category, c.subcategory, info.title, info.description)
  }

  /** `allProducts`, in the order the import lists the files. */
  function AllProducts(assets: seq<Asset>): (ps: seq<Product>)
    ensures |ps| == |assets|
    ensures forall i :: 0 <= i < |ps| ==> ps[i] == MakeProduct(assets[i])
  {
    seq(|assets|, i requires 0 <= i < |assets| => MakeProduct(assets[i]))
  }

  // ---------------------------------------------------------------------------
  // Categories

  predicate StrictlySorted(xs: seq<string>) {
    forall i, j :: 0 <= i < j < |xs| ==> Less(xs[i], xs[j])
  }

  function InsertSorted(xs: seq<string>, x: string): (r: seq<string>)
    requires StrictlySorted(xs)
    ensures StrictlySorted(r)
    ensures forall y :: y in r <==> y in xs || y == x
    decreases |xs|
  {
    if |xs| == 0 then [x]
    else if x == xs[0] then xs
    else if Less(x, xs[0]) then
      InsertFrontSorted(xs, x);
      [x] + xs
    else
      LessTotal(x, xs[0]);
      var rest := InsertSorted(xs[1..], x);
      assert forall y :: y in rest ==> Less(xs[0], y) by {
        forall y | y in rest ensures Less(xs[0], y) {
          if y != x {
            var k :| 0 <= k < |xs[1..]| && xs[1..][k] == y;
            assert xs[k + 1] == y;
          }
        }
      }
      ConsSorted(xs[0], rest);
      [xs[0]] + rest
  }

  lemma InsertFrontSorted(xs: seq<string>, x: string)
    requires StrictlySorted(xs) && |xs| > 0 && Less(x, xs[0])
    ensures StrictlySorted([x] + xs)
  {
    forall j | 0 < j < |xs| ensures Less(x, xs[j]) {
      LessTransitive(x, xs[0], xs[j]);
    }
  }

  lemma ConsSorted(x: string, ys: seq<string>)
    requires StrictlySorted(ys)
    requires forall y :: y in ys ==> Less(x, y)
    ensures StrictlySorted([x] + ys)
  {
    var r := [x] + ys;
    forall i, j | 0 <= i < j < |r| ensures Less(r[i], r[j]) {
      if i > 0 {
        assert r[i] == ys[i - 1] && r[j] == ys[j - 1];
      } else {
        assert r[j] == ys[j - 1];
      }
    }
  }

  /** `Array.from(new Set(xs)).sort()` */
  function SortedUnique(xs: seq<string>): (r: seq<string>)
    ensures StrictlySorted(r)
    ensures forall y :: y in r <==> y in xs
    decreases |xs|
  {
    if |xs| == 0 then []
    else
      var r := InsertSorted(SortedUnique(xs[..|xs| - 1]), xs[|xs| - 1]);
      assert xs == xs[..|xs| - 1] + [xs[|xs| - 1]];
      r
  }

  /** `allCategories`: every category that occurs, sorted, each once. */
  function AllCategories(all: seq<Product>): (cats: seq<string>)
    ensures StrictlySorted(cats)
    ensures forall c :: c in cats <==> exists i :: 0 <= i < |all| && all[i].category == c
  {
    var xs := seq(|all|, i requires 0 <= i < |all| => all[i].category);
    var r := SortedUnique(xs);
    assert forall c :: c in xs <==> exists i :: 0 <= i < |all| && all[i].category == c by {
      forall c ensures c in xs <==> exists i :: 0 <= i < |all| && all[i].category == c {
        if c in xs {
          var i :| 0 <= i < |xs| && xs[i] == c;
          assert all[i].category == c;
        }
        if exists i :: 0 <= i < |all| && all[i].category == c {
          var i :| 0 <= i < |all| && all[i].category == c;
          assert xs[i] == c;
        }
      }
    }
    r
  }

  /** A strictly sorted list has no duplicates. */
  lemma SortedDistinct(xs: seq<string>, i: nat, j: nat)
    requires StrictlySorted(xs) && i < j < |xs|
    ensures xs[i] != xs[j]
  {
    LessIrreflexive(xs[i]);
  }

  // ---------------------------------------------------------------------------
  // Filter and grouping

  /** Dropping the last element of a concatenation with a non-empty right part. */
  lemma AppendLast(ps: seq<Product>, qs: seq<Product>)
    requires |qs| > 0
    ensures (ps + qs)[..|ps + qs| - 1] == ps + qs[..|qs| - 1] && (ps + qs)[|ps + qs| - 1] == qs[|qs| - 1]
  {
  }

  /** A selected category is truthy: present and not the empty string. */
  predicate Active(selected: Option<string>) {
    selected.Some? && selected.value != ""
  }

  /** `ps.filter(p => p.category === c)` */
  function FilterCategory(ps: seq<Product>, c: string): (r: seq<Product>)
    ensures forall p :: p in r <==> p in ps && p.category == c
    decreases |ps|
  {
    if |ps| == 0 then []
    else
      var r := FilterCategory(ps[..|ps| - 1], c) + (if ps[|ps| - 1].category == c then [ps[|ps| - 1]] else []);
      assert ps == ps[..|ps| - 1] + [ps[|ps| - 1]];
      r
  }

  /** `filter` keeps every element's place: filtering a concatenation filters each part. */
  lemma {:induction false} FilterCategoryAppend(ps: seq<Product>, qs: seq<Product>, c: string)
    ensures FilterCategory(ps + qs, c) == FilterCategory(ps, c) + FilterCategory(qs, c)
    decreases |qs|
  {
    if |qs| == 0 {
      assert ps + qs == ps;
    } else {
      var init, last := qs[..|qs| - 1], qs[|qs| - 1];
      FilterCategoryAppend(ps, init, c);
      AppendLast(ps, qs);
      FilterCategoryLast(ps + qs, c);
      FilterCategoryLast(qs, c);
    }
  }

  lemma FilterCategoryLast(xs: seq<Product>, c: string)
    requires |xs| > 0
    ensures var last := xs[|xs| - 1];
      FilterCategory(xs, c) == FilterCategory(xs[..|xs| - 1], c) + (if last.category == c then [last] else [])
  {
  }

  /** `filter` keeps every copy of a product of category `c` and no copy of any other product. */
  lemma {:induction false} FilterCategoryCounts(ps: seq<Product>, c: string)
    ensures forall p :: multiset(FilterCategory(ps, c))[p] == if p.category == c then multiset(ps)[p] else 0
    decreases |ps|
  {
    if |ps| > 0 {
      var init, last := ps[..|ps| - 1], ps[|ps| - 1];
      FilterCategoryCounts(init, c);
      assert ps == init + [last];
      var tail := if last.category == c then [last] else [];
      assert multiset(FilterCategory(ps, c)) == multiset(FilterCategory(init, c)) + multiset(tail);
    }
  }

  /** `ps.filter(p => p.subcategory === s)` */
  function FilterSubcategory(ps: seq<Product>, s: string): (r: seq<Product>)
    ensures forall p :: p in r <==> p in ps && p.subcategory == Some(s)
    decreases |ps|
  {
    if |ps| == 0 then []
    else
      var r := FilterSubcategory(ps[..|ps| - 1], s) + (if ps[|ps| - 1].subcategory == Some(s) then [ps[|ps| - 1]] else []);
      assert ps == ps[..|ps| - 1] + [ps[|ps| - 1]];
      r
  }

  /** `filter` keeps every element's place: filtering a concatenation filters each part. */
  lemma {:induction false} FilterSubcategoryAppend(ps: seq<Product>, qs: seq<Product>, s: string)
    ensures FilterSubcategory(ps + qs, s) == FilterSubcategory(ps, s) + FilterSubcategory(qs, s)
    decreases |qs|
  {
    if |qs| == 0 {
      assert ps + qs == ps;
    } else {
      var init, last := qs[..|qs| - 1], qs[|qs| - 1];
      FilterSubcategoryAppend(ps, init, s);
      AppendLast(ps, qs);
      FilterSubcategoryLast(ps + qs, s);
      FilterSubcategoryLast(qs, s);
    }
  }

  lemma FilterSubcategoryLast(xs: seq<Product>, s: string)
    requires |xs| > 0
    ensures var last := xs[|xs| - 1];
      FilterSubcategory(xs, s) == FilterSubcategory(xs[..|xs| - 1], s) + (if last.subcategory == Some(s) then [last] else [])
  {
  }

  /** `filter` keeps every copy of a product of subcategory `s` and no copy of any other product. */
  lemma {:induction false} FilterSubcategoryCounts(ps: seq<Product>, s: string)
    ensures forall p :: multiset(FilterSubcategory(ps, s))[p] == if p.subcategory == Some(s) then multiset(ps)[p] else 0
    decreases |ps|
  {
    if |ps| > 0 {
      var init, last := ps[..|ps| - 1], ps[|ps| - 1];
      FilterSubcategoryCounts(init, s);
      assert ps == init + [last];
      var tail := if last.subcategory == Some(s) then [last] else [];
      assert multiset(FilterSubcategory(ps, s)) == multiset(FilterSubcategory(init, s)) + multiset(tail);
    }
  }

  /** `filteredProducts` */
  function Filtered(all: seq<Product>, selected: Option<string>): (r: seq<Product>)
    ensures forall p :: p in r <==> p in all && (!Active(selected) || p.category == selected.value)
  {
    if Active(selected) then FilterCategory(all, selected.value) else all
  }

  /** The filtered list keeps the products' order: filtering a concatenation filters each part. */
  lemma FilteredAppend(ps: seq<Product>, qs: seq<Product>, selected: Option<string>)
    ensures Filtered(ps + qs, selected) == Filtered(ps, selected) + Filtered(qs, selected)
  {
    if Active(selected) {
      FilterCategoryAppend(ps, qs, selected.value);
    }
  }

  /** The filtered list holds every copy of each product the filter lets through, and nothing else. */
  lemma FilteredCounts(all: seq<Product>, selected: Option<string>)
    ensures forall p :: (multiset(Filtered(all, selected))[p] ==
      if !Active(selected) || p.category == selected.value then multiset(all)[p] else 0)
  {
    if Active(selected) {
      FilterCategoryCounts(all, selected.value);
    }
  }

  /** `product.subcategory || product.category`: an empty subcategory is falsy too. */
  function GroupKey(p: Product): (k: string)
    ensures p.subcategory.Some? && p.subcategory.value != "" ==> k == p.subcategory.value
    ensures p.subcategory.None? || p.subcategory.value == "" ==> k == p.category
  {
    if p.subcategory.Some? && p.subcategory.value != "" then p.subcategory.value else p.category
  }

  /**
   * A product as the import builds it is grouped under its PLC subcategory when it
   * has one, else under its category.
   */
  lemma GroupKeyOfProduct(p: Product)
    requires p.subcategory.Some? ==> p.category == "PLC" && p.subcategory.value in PlcSubcategories
    ensures if p.subcategory.Some? then GroupKey(p) in PlcSubcategories else GroupKey(p) == p.category
  {
    if p.subcategory.Some? {
      assert forall k :: 0 <= k < |PlcSubcategories| ==> |PlcSubcategories[k]| > 0;
    }
  }

  /** The products with group key `k`, in their original order. */
  function FilterKey(ps: seq<Product>, k: string): (r: seq<Product>)
    ensures forall p :: p in r <==> p in ps && GroupKey(p) == k
    decreases |ps|
  {
    if |ps| == 0 then []
    else
      var r := FilterKey(ps[..|ps| - 1], k) + (if GroupKey(ps[|ps| - 1]) == k then [ps[|ps| - 1]] else []);
      assert ps == ps[..|ps| - 1] + [ps[|ps| - 1]];
      r
  }

  /** `filter` keeps every element's place: filtering a concatenation filters each part. */
  lemma {:induction false} FilterKeyAppend(ps: seq<Product>, qs: seq<Product>, k: string)
    ensures FilterKey(ps + qs, k) == FilterKey(ps, k) + FilterKey(qs, k)
    decreases |qs|
  {
    if |qs| == 0 {
      assert ps + qs == ps;
    } else {
      var init, last := qs[..|qs| - 1], qs[|qs| - 1];
      FilterKeyAppend(ps, init, k);
      AppendLast(ps, qs);
      FilterKeyLast(ps + qs, k);
      FilterKeyLast(qs, k);
    }
  }

  lemma FilterKeyLast(xs: seq<Product>, k: string)
    requires |xs| > 0
    ensures var last := xs[|xs| - 1];
      FilterKey(xs, k) == FilterKey(xs[..|xs| - 1], k) + (if GroupKey(last) == k then [last] else [])
  {
  }

  /** `filter` keeps every copy of a product with group key `k` and no copy of any other product. */
  lemma {:induction false} FilterKeyCounts(ps: seq<Product>, k: string)
    ensures forall p :: multiset(FilterKey(ps, k))[p] == if GroupKey(p) == k then multiset(ps)[p] else 0
    decreases |ps|
  {
    if |ps| > 0 {
      var init, last := ps[..|ps| - 1], ps[|ps| - 1];
      FilterKeyCounts(init, k);
      assert ps == init + [last];
      var tail := if GroupKey(last) == k then [last] else [];
      assert multiset(FilterKey(ps, k)) == multiset(FilterKey(init, k)) + multiset(tail);
    }
  }

  /** The group keys that occur in `ps`. */
  function KeySet(ps: seq<Product>): (ks: set<string>)
    ensures forall k :: k in ks <==> exists i :: 0 <= i < |ps| && GroupKey(ps[i]) == k
    decreases |ps|
  {
    if |ps| == 0 then {}
    else
      var ks := KeySet(ps[..|ps| - 1]) + {GroupKey(ps[|ps| - 1])};
      assert forall i :: 0 <= i < |ps| - 1 ==> ps[..|ps| - 1][i] == ps[i];
      ks
  }

  lemma {:induction false} FilterKeyAbsent(ps: seq<Product>, k: string)
    requires k !in KeySet(ps)
    ensures FilterKey(ps, k) == []
    decreases |ps|
  {
    if |ps| > 0 {
      FilterKeyAbsent(ps[..|ps| - 1], k);
    }
  }

  lemma FilterKeyStep(ps: seq<Product>, i: nat, k: string)
    requires i < |ps|
    ensures FilterKey(ps[..i + 1], k) == FilterKey(ps[..i], k) + (if GroupKey(ps[i]) == k then [ps[i]] else [])
  {
    assert ps[..i + 1][..i] == ps[..i];
  }

  lemma KeySetStep(ps: seq<Product>, i: nat)
    requires i < |ps|
    ensures KeySet(ps[..i + 1]) == KeySet(ps[..i]) + {GroupKey(ps[i])}
  {
    assert ps[..i + 1][..i] == ps[..i];
  }

  /** `groups` maps each key occurring in `ps` to the products of `ps` with that key, in order. */
  predicate GroupsOf(groups: map<string, seq<Product>>, ps: seq<Product>) {
    groups.Keys == KeySet(ps) && forall k :: k in groups ==> groups[k] == FilterKey(ps, k)
  }

  /** The bucket of `key` after pushing `ps[i]` onto it. */
  function Pushed(groups: map<string, seq<Product>>, key: string, p: Product): map<string, seq<Product>> {
    groups[key := (if key in groups then groups[key] else []) + [p]]
  }

  lemma GroupKeysStep(ps: seq<Product>, i: nat, groups: map<string, seq<Product>>)
    requires i < |ps| && groups.Keys == KeySet(ps[..i])
    ensures Pushed(groups, GroupKey(ps[i]), ps[i]).Keys == KeySet(ps[..i + 1])
  {
    KeySetStep(ps, i);
  }

  lemma GroupValueStep(ps: seq<Product>, i: nat, groups: map<string, seq<Product>>, k: string)
    requires i < |ps| && GroupsOf(groups, ps[..i])
    requires k in Pushed(groups, GroupKey(ps[i]), ps[i])
    ensures Pushed(groups, GroupKey(ps[i]), ps[i])[k] == FilterKey(ps[..i + 1], k)
  {
    FilterKeyStep(ps, i, k);
    if k == GroupKey(ps[i]) && k !in groups {
      FilterKeyAbsent(ps[..i], k);
    }
  }

  /** One step of the reduce keeps the grouping exact for the longer prefix. */
  lemma GroupStep(ps: seq<Product>, i: nat, groups: map<string, seq<Product>>)
    requires i < |ps| && GroupsOf(groups, ps[..i])
    ensures GroupsOf(Pushed(groups, GroupKey(ps[i]), ps[i]), ps[..i + 1])
  {
    var next := Pushed(groups, GroupKey(ps[i]), ps[i]);
    GroupKeysStep(ps, i, groups);
    forall k | k in next ensures next[k] == FilterKey(ps[..i + 1], k) {
      GroupValueStep(ps, i, groups, k);
    }
  }

  /**
   * `groupedProducts`: the reduce that pushes each product onto the array of its key.
   * The keys are exactly the keys that occur, and each gets exactly the products with
   * that key, in their original order.
   */
  method GroupProducts(products: seq<Product>) returns (groups: map<string, seq<Product>>)
    ensures groups.Keys == KeySet(products)
    ensures forall k :: k in groups ==> groups[k] == FilterKey(products, k)
  {
    groups := map[];
    for i := 0 to |products|
      invariant GroupsOf(groups, products[..i])
    {
      var product := products[i];
      var key := GroupKey(product);
      GroupStep(products, i, groups);
      if key !in groups {
        groups := groups[key := []];
      }
      groups := groups[key := groups[key] + [product]];
    }
    assert products[..|products|] == products;
  }

  // ---------------------------------------------------------------------------
  // Sections

  datatype Section = Section(name: string, isSubsection: bool, products: seq<Product>)

  /** The heading that opens the PLC part of the page; it holds no products itself. */
  const PlcHeader: Section := Section("PLC", false, [])

  /** The PLC part is shown with no filter or with the "PLC" filter. */
  predicate ShowsPlc(selected: Option<string>) {
    !Active(selected) || selected.value == "PLC"
  }

  /** A non-PLC category section is shown with no filter or with its own filter. */
  predicate ShowsCategory(selected: Option<string>, c: string) {
    c != "PLC" && (!Active(selected) || selected.value == c)
  }

  /** The non-empty subsections, one per name, in the order of `names`. */
  function SubSections(names: seq<string>, plc: seq<Product>): seq<Section>
    decreases |names|
  {
    if |names| == 0 then []
    else
      var last := names[|names| - 1];
      var ps := FilterSubcategory(plc, last);
      SubSections(names[..|names| - 1], plc) + (if |ps| > 0 then [Section(last, true, ps)] else [])
  }

  /** The non-empty shown category sections, in the order of `cats`. */
  function CategorySections(cats: seq<string>, filtered: seq<Product>, selected: Option<string>): seq<Section>
    decreases |cats|
  {
    if |cats| == 0 then []
    else
      var last := cats[|cats| - 1];
      var ps := FilterCategory(filtered, last);
      CategorySections(cats[..|cats| - 1], filtered, selected)
        + (if ShowsCategory(selected, last) && |ps| > 0 then [Section(last, false, ps)] else [])
  }

  /** The PLC part of the page: the header followed by its non-empty subsections. */
  function PlcPart(all: seq<Product>, selected: Option<string>): seq<Section> {
    var plc := FilterCategory(all, "PLC");
    if ShowsPlc(selected) && |plc| > 0 then [PlcHeader] + SubSections(PlcSubcategories, plc) else []
  }

  /** The sections of the other categories, in category-list order. */
  function CategoryPart(all: seq<Product>, selected: Option<string>): seq<Section> {
    CategorySections(AllCategories(all), Filtered(all, selected), selected)
  }

  /** What `organizeProducts` returns. */
  function Organized(all: seq<Product>, selected: Option<string>): seq<Section> {
    PlcPart(all, selected) + CategoryPart(all, selected)
  }

  /** The subcategory loop of `organizeProducts`: appends a section per non-empty subcategory. */
  method AppendSubSections(organized: seq<Section>, names: seq<string>, plc: seq<Product>)
    returns (r: seq<Section>)
    ensures r == organized + SubSections(names, plc)
  {
    r := organized;
    for i := 0 to |names|
      invariant r == organized + SubSections(names[..i], plc)
    {
      var subcat := names[i];
      var subcatProducts := FilterSubcategory(plc, subcat);
      assert names[..i + 1][..i] == names[..i];
      if |subcatProducts| > 0 {
        r := r + [Section(subcat, true, subcatProducts)];
      }
    }
    assert names[..|names|] == names;
  }

  /** The category loop of `organizeProducts`: appends a section per shown, non-empty category. */
  method AppendCategorySections(organized: seq<Section>, cats: seq<string>, filtered: seq<Product>,
                                selected: Option<string>)
    returns (r: seq<Section>)
    ensures r == organized + CategorySections(cats, filtered, selected)
  {
    r := organized;
    for i := 0 to |cats|
      invariant r == organized + CategorySections(cats[..i], filtered, selected)
    {
      var category := cats[i];
      assert cats[..i + 1][..i] == cats[..i];
      if category != "PLC" && (!Active(selected) || selected.value == category) {
        var categoryProducts := FilterCategory(filtered, category);
        if |categoryProducts| > 0 {
          r := r + [Section(category, false, categoryProducts)];
        }
      }
    }
    assert cats[..|cats|] == cats;
  }

  /** `organizeProducts`, building the section list by appending, as the page does. */
  method OrganizeProducts(all: seq<Product>, selected: Option<string>) returns (organized: seq<Section>)
    ensures organized == Organized(all, selected)
  {
    organized := [];
    var filtered := Filtered(all, selected);
    if !Active(selected) || selected.value == "PLC" {
      var plcProducts := FilterCategory(all, "PLC");
      if |plcProducts| > 0 {
        organized := AppendSubSections([PlcHeader], PlcSubcategories, plcProducts);
      }
    }
    assert organized == PlcPart(all, selected);
    organized := AppendCategorySections(organized, AllCategories(all), filtered, selected);
  }

  // ---------------------------------------------------------------------------
  // Properties of the section list

  /** `x` occurs in `names` strictly before `y`. */
  predicate Before(names: seq<string>, x: string, y: string) {
    exists a, b :: 0 <= a < b < |names| && names[a] == x && names[b] == y
  }

  /** The section names occur in `names` in the same order. */
  predicate FollowsOrder(secs: seq<Section>, names: seq<string>) {
    forall i, j :: 0 <= i < j < |secs| ==> Before(names, secs[i].name, secs[j].name)
  }

  /** The section names are strictly increasing. */
  predicate NamesSorted(secs: seq<Section>) {
    forall i, j :: 0 <= i < j < |secs| ==> Less(secs[i].name, secs[j].name)
  }

  lemma BeforeGrow(names: seq<string>, x: string, y: string)
    requires |names| > 0 && Before(names[..|names| - 1], x, y)
    ensures Before(names, x, y)
  {
    var init := names[..|names| - 1];
    var a, b :| 0 <= a < b < |init| && init[a] == x && init[b] == y;
    assert names[a] == x && names[b] == y;
  }

  lemma BeforeLast(names: seq<string>, x: string)
    requires |names| > 0 && x in names[..|names| - 1]
    ensures Before(names, x, names[|names| - 1])
  {
    var init := names[..|names| - 1];
    var a :| 0 <= a < |init| && init[a] == x;
    assert names[a] == x;
  }

  lemma SortedLastGreatest(cats: seq<string>, x: string)
    requires StrictlySorted(cats) && |cats| > 0 && x in cats[..|cats| - 1]
    ensures Less(x, cats[|cats| - 1])
  {
    var init := cats[..|cats| - 1];
    var a :| 0 <= a < |init| && init[a] == x;
    assert cats[a] == x;
  }

  lemma {:induction false} SubSectionsShape(names: seq<string>, plc: seq<Product>)
    ensures forall s :: s in SubSections(names, plc) ==>
      s.isSubsection && s.name in names && s.products == FilterSubcategory(plc, s.name) && |s.products| > 0
    decreases |names|
  {
    if |names| > 0 {
      SubSectionsShape(names[..|names| - 1], plc);
      assert forall x :: x in names[..|names| - 1] ==> x in names;
    }
  }

  lemma {:induction false} CategorySectionsShape(cats: seq<string>, filtered: seq<Product>, selected: Option<string>)
    ensures forall s :: s in CategorySections(cats, filtered, selected) ==>
      !s.isSubsection && s.name in cats && ShowsCategory(selected, s.name)
      && s.products == FilterCategory(filtered, s.name) && |s.products| > 0
    decreases |cats|
  {
    if |cats| > 0 {
      CategorySectionsShape(cats[..|cats| - 1], filtered, selected);
      assert forall x :: x in cats[..|cats| - 1] ==> x in cats;
    }
  }

  /** Subsections follow the order of the names they come from. */
  lemma {:induction false} SubSectionsOrdered(names: seq<string>, plc: seq<Product>)
    ensures FollowsOrder(SubSections(names, plc), names)
    decreases |names|
  {
    if |names| > 0 {
      var init := names[..|names| - 1];
      var prev := SubSections(init, plc);
      var secs := SubSections(names, plc);
      SubSectionsOrdered(init, plc);
      SubSectionsShape(init, plc);
      forall i, j | 0 <= i < j < |secs| ensures Before(names, secs[i].name, secs[j].name) {
        assert secs[i] == prev[i];
        if j < |prev| {
          assert secs[j] == prev[j];
          assert Before(init, prev[i].name, prev[j].name);
          BeforeGrow(names, secs[i].name, secs[j].name);
        } else {
          assert prev[i] in prev;
          assert secs[j].name == names[|names| - 1];
          BeforeLast(names, secs[i].name);
        }
      }
    }
  }

  /** Category sections come in the sorted order of the category list. */
  lemma {:induction false} CategorySectionsSorted(cats: seq<string>, filtered: seq<Product>, selected: Option<string>)
    requires StrictlySorted(cats)
    ensures NamesSorted(CategorySections(cats, filtered, selected))
    decreases |cats|
  {
    if |cats| > 0 {
      var init := cats[..|cats| - 1];
      var prev := CategorySections(init, filtered, selected);
      var secs := CategorySections(cats, filtered, selected);
      assert StrictlySorted(init) by {
        forall i, j | 0 <= i < j < |init| ensures Less(init[i], init[j]) {
          assert init[i] == cats[i] && init[j] == cats[j];
        }
      }
      CategorySectionsSorted(init, filtered, selected);
      CategorySectionsShape(init, filtered, selected);
      forall i, j | 0 <= i < j < |secs| ensures Less(secs[i].name, secs[j].name) {
        assert secs[i] == prev[i];
        if j < |prev| {
          assert secs[j] == prev[j];
          assert Less(prev[i].name, prev[j].name);
        } else {
          assert prev[i] in prev;
          assert secs[j].name == cats[|cats| - 1];
          SortedLastGreatest(cats, secs[i].name);
        }
      }
    }
  }

  lemma {:induction false} SubSectionFor(names: seq<string>, plc: seq<Product>, k: nat)
    requires k < |names| && |FilterSubcategory(plc, names[k])| > 0
    ensures Section(names[k], true, FilterSubcategory(plc, names[k])) in SubSections(names, plc)
    decreases |names|
  {
    if k < |names| - 1 {
      SubSectionFor(names[..|names| - 1], plc, k);
    }
  }

  lemma {:induction false} CategorySectionFor(cats: seq<string>, filtered: seq<Product>, selected: Option<string>, k: nat)
    requires k < |cats| && ShowsCategory(selected, cats[k]) && |FilterCategory(filtered, cats[k])| > 0
    ensures Section(cats[k], false, FilterCategory(filtered, cats[k])) in CategorySections(cats, filtered, selected)
    decreases |cats|
  {
    if k < |cats| - 1 {
      CategorySectionFor(cats[..|cats| - 1], filtered, selected, k);
    }
  }

  /**
   * The PLC part is present exactly when it is shown and some product is a PLC; it
   * opens with the header, and every other section in it is a non-empty subsection
   * named after one of the six subcategories, holding PLC products of that
   * subcategory that pass the filter.
   */
  lemma PlcPartShape(all: seq<Product>, selected: Option<string>)
    ensures var part := PlcPart(all, selected);
      && (|part| > 0 <==> ShowsPlc(selected) && exists i :: 0 <= i < |all| && all[i].category == "PLC")
      && (|part| > 0 ==> part[0] == PlcHeader)
      && forall s :: s in part && s != PlcHeader ==>
           && s.isSubsection && s.name in PlcSubcategories && |s.products| > 0
           && forall p :: p in s.products ==>
                p in Filtered(all, selected) && p.category == "PLC" && p.subcategory == Some(s.name)
  {
    var plc := FilterCategory(all, "PLC");
    SubSectionsShape(PlcSubcategories, plc);
    if exists i :: 0 <= i < |all| && all[i].category == "PLC" {
      var i :| 0 <= i < |all| && all[i].category == "PLC";
      assert all[i] in plc;
    }
    if |plc| > 0 {
      assert plc[0] in all;
    }
  }

  /**
   * Every section of the category part is a non-empty, shown category other than
   * "PLC", holding the products of that category that pass the filter.
   */
  lemma CategoryPartShape(all: seq<Product>, selected: Option<string>)
    ensures forall s :: s in CategoryPart(all, selected) ==>
      && !s.isSubsection && s.name != "PLC" && ShowsCategory(selected, s.name) && |s.products| > 0
      && forall p :: p in s.products ==> p in Filtered(all, selected) && p.category == s.name
  {
    CategorySectionsShape(AllCategories(all), Filtered(all, selected), selected);
  }

  /**
   * The section list opens with the PLC header exactly when the PLC part is shown and
   * some product is a PLC; the header is the only section without products, and every
   * product of a section belongs to it: subsections hold PLC products of that
   * subcategory, other sections products of that category.
   */
  lemma SectionsWellFormed(all: seq<Product>, selected: Option<string>)
    ensures var org := Organized(all, selected);
      && (PlcHeader in org <==> ShowsPlc(selected) && exists i :: 0 <= i < |all| && all[i].category == "PLC")
      && (PlcHeader in org ==> org[0] == PlcHeader)
      && forall s :: s in org && s != PlcHeader ==>
           && |s.products| > 0
           && forall p :: p in s.products ==>
                if s.isSubsection then p.category == "PLC" && p.subcategory == Some(s.name)
                else p.category == s.name
  {
    PlcPartShape(all, selected);
    CategoryPartShape(all, selected);
  }

  /** Sections only ever show products that pass the filter. */
  lemma SectionsWithinFilter(all: seq<Product>, selected: Option<string>)
    ensures forall s, p :: s in Organized(all, selected) && p in s.products ==> p in Filtered(all, selected)
  {
    PlcPartShape(all, selected);
    CategoryPartShape(all, selected);
  }

  /** With a category filter, only that category's sections (or the PLC part for "PLC") remain. */
  lemma SectionsRespectFilter(all: seq<Product>, selected: Option<string>)
    requires Active(selected)
    ensures forall s :: s in Organized(all, selected) ==>
      if s.isSubsection || s == PlcHeader then selected.value == "PLC" else s.name == selected.value
  {
    PlcPartShape(all, selected);
    CategoryPartShape(all, selected);
  }

  /** Where a position of the section list comes from: the header, a subsection, or a category section. */
  lemma OrganizedAt(all: seq<Product>, selected: Option<string>, i: nat)
    requires i < |Organized(all, selected)|
    ensures var org := Organized(all, selected);
      var head := PlcPart(all, selected);
      var subs := SubSections(PlcSubcategories, FilterCategory(all, "PLC"));
      && (i >= |head| ==> org[i] == CategoryPart(all, selected)[i - |head|] && !org[i].isSubsection && org[i] != PlcHeader)
      && (0 < i < |head| ==> org[i] == subs[i - 1] && org[i].isSubsection)
      && (i == 0 < |head| ==> org[i] == PlcHeader)
  {
    if i >= |PlcPart(all, selected)| {
      OrganizedAtCategory(all, selected, i);
    } else {
      OrganizedAtPlc(all, selected, i);
    }
  }

  lemma OrganizedAtCategory(all: seq<Product>, selected: Option<string>, i: nat)
    requires |PlcPart(all, selected)| <= i < |Organized(all, selected)|
    ensures var org := Organized(all, selected);
      var s := CategoryPart(all, selected)[i - |PlcPart(all, selected)|];
      org[i] == s && !s.isSubsection && s != PlcHeader
  {
    var others := CategoryPart(all, selected);
    var k := i - |PlcPart(all, selected)|;
    assert others[k] in others;
    CategoryPartShape(all, selected);
  }

  lemma OrganizedAtPlc(all: seq<Product>, selected: Option<string>, i: nat)
    requires i < |PlcPart(all, selected)|
    ensures var org := Organized(all, selected);
      var subs := SubSections(PlcSubcategories, FilterCategory(all, "PLC"));
      && (i > 0 ==> org[i] == subs[i - 1] && org[i].isSubsection)
      && (i == 0 ==> org[i] == PlcHeader)
  {
    var head := PlcPart(all, selected);
    var plc := FilterCategory(all, "PLC");
    var subs := SubSections(PlcSubcategories, plc);
    assert head == [PlcHeader] + subs;
    assert Organized(all, selected)[i] == head[i];
    if i > 0 {
      assert head[i] == subs[i - 1] && subs[i - 1] in subs;
      SubSectionsShape(PlcSubcategories, plc);
    }
  }

  /** The subsections follow the order of `plcSubcategories`. */
  lemma SubsectionsInOrder(all: seq<Product>, selected: Option<string>)
    ensures var org := Organized(all, selected);
      forall i, j :: 0 <= i < j < |org| && org[i].isSubsection && org[j].isSubsection ==>
        Before(PlcSubcategories, org[i].name, org[j].name)
  {
    var org := Organized(all, selected);
    var subs := SubSections(PlcSubcategories, FilterCategory(all, "PLC"));
    SubSectionsOrdered(PlcSubcategories, FilterCategory(all, "PLC"));
    forall i, j | 0 <= i < j < |org| && org[i].isSubsection && org[j].isSubsection
      ensures Before(PlcSubcategories, org[i].name, org[j].name)
    {
      OrganizedAt(all, selected, i);
      OrganizedAt(all, selected, j);
      assert org[i] == subs[i - 1] && org[j] == subs[j - 1];
    }
  }

  /** The category sections are strictly sorted by name. */
  lemma CategorySectionsInOrder(all: seq<Product>, selected: Option<string>)
    ensures var org := Organized(all, selected);
      forall i, j :: 0 <= i < j < |org| && !org[i].isSubsection && !org[j].isSubsection && org[i] != PlcHeader ==>
        Less(org[i].name, org[j].name)
  {
    var org := Organized(all, selected);
    var head := PlcPart(all, selected);
    var others := CategoryPart(all, selected);
    CategorySectionsSorted(AllCategories(all), Filtered(all, selected), selected);
    forall i, j | 0 <= i < j < |org| && !org[i].isSubsection && !org[j].isSubsection && org[i] != PlcHeader
      ensures Less(org[i].name, org[j].name)
    {
      OrganizedAt(all, selected, i);
      OrganizedAt(all, selected, j);
    }
  }

  /** Every subsection precedes every category section. */
  lemma SubsectionsFirst(all: seq<Product>, selected: Option<string>)
    ensures var org := Organized(all, selected);
      forall i, j :: 0 <= i < |org| && 0 <= j < |org| && org[i].isSubsection && !org[j].isSubsection && org[j] != PlcHeader ==>
        i < j
  {
    var org := Organized(all, selected);
    forall i, j | 0 <= i < |org| && 0 <= j < |org| && org[i].isSubsection && !org[j].isSubsection && org[j] != PlcHeader
      ensures i < j
    {
      OrganizedAt(all, selected, i);
      OrganizedAt(all, selected, j);
    }
  }

  /** A PLC product of one of the six subcategories that passes the filter is shown in its subsection. */
  lemma ShownInSubsection(all: seq<Product>, selected: Option<string>, p: Product)
    requires p in Filtered(all, selected)
    requires p.category == "PLC" && p.subcategory.Some? && p.subcategory.value in PlcSubcategories
    ensures Section(p.subcategory.value, true, FilterSubcategory(FilterCategory(all, "PLC"), p.subcategory.value))
      in Organized(all, selected)
  {
    var plc := FilterCategory(all, "PLC");
    var k :| 0 <= k < |PlcSubcategories| && PlcSubcategories[k] == p.subcategory.value;
    assert p in FilterSubcategory(plc, PlcSubcategories[k]);
    SubSectionFor(PlcSubcategories, plc, k);
  }

  /** Any other non-PLC product that passes the filter is shown in its category's section. */
  lemma ShownInCategory(all: seq<Product>, selected: Option<string>, p: Product)
    requires p in Filtered(all, selected) && p.category != "PLC"
    ensures Section(p.category, false, FilterCategory(Filtered(all, selected), p.category))
      in Organized(all, selected)
  {
    var cats := AllCategories(all);
    var filtered := Filtered(all, selected);
    var i :| 0 <= i < |all| && all[i] == p;
    assert all[i].category == p.category;
    assert p.category in cats;
    var k :| 0 <= k < |cats| && cats[k] == p.category;
    assert p in FilterCategory(filtered, cats[k]);
    CategorySectionFor(cats, filtered, selected, k);
    assert CategoryPart(all, selected) == CategorySections(cats, filtered, selected);
  }

  /**
   * Every product that passes the filter is shown in some section, unless it is a PLC
   * product without one of the six subcategories (an image directly in a folder named
   * "PLC", say): such a product is in no section at all.
   */
  lemma ShownIff(all: seq<Product>, selected: Option<string>, p: Product)
    requires p in Filtered(all, selected)
    ensures (exists s :: s in Organized(all, selected) && p in s.products) <==>
      !(p.category == "PLC" && !(p.subcategory.Some? && p.subcategory.value in PlcSubcategories))
  {
    if p.category == "PLC" && p.subcategory.Some? && p.subcategory.value in PlcSubcategories {
      ShownInSubsection(all, selected, p);
      assert p in FilterSubcategory(FilterCategory(all, "PLC"), p.subcategory.value);
    } else if p.category != "PLC" {
      ShownInCategory(all, selected, p);
      assert p in FilterCategory(Filtered(all, selected), p.category);
    } else {
      PlcPartShape(all, selected);
      CategoryPartShape(all, selected);
    }
  }
}
