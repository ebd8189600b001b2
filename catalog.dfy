/** The catalog hooks of `src/hooks/useProducts.ts`: which filter clauses the storefront and admin
    product queries carry, what the backend returns for them, and the category list. */
module Catalog {
  import opened Nullable
  import opened Seqs
  import opened Text
  import opened Tables

  /** A filter clause of a product query. */
  datatype Clause =
    | ActiveOnly                      // .eq("is_active", true)
    | CategoryIs(category: string)    // .eq("category", category)
    | TextMatches(pattern: string)    // .or("name.ilike.%q%,description.ilike.%q%,category.ilike.%q%")

  /** A product query: its filter clauses and whether it orders by `created_at` descending. */
  datatype Query = Query(filters: seq<Clause>, newestFirst: bool)

  /** `category && category !== "all"`. */
  predicate CategorySelected(category: Option<string>) {
    category.Some? && category.value != "" && category.value != "all"
  }

  /** `searchQuery && searchQuery.trim()`. */
  predicate SearchGiven(search: Option<string>) {
    search.Some? && search.value != "" && Trim(search.value) != ""
  }

  /** The query `useProducts(category, searchQuery)` sends. */
  function ProductsQuery(category: Option<string>, search: Option<string>): (q: Query)
    ensures q.newestFirst
    ensures ActiveOnly in q.filters
    ensures CategorySelected(category) ==> CategoryIs(category.value) in q.filters
    ensures SearchGiven(search) ==> TextMatches(search.value) in q.filters
    ensures forall c :: c in q.filters ==>
      || c == ActiveOnly
      || (CategorySelected(category) && c == CategoryIs(category.value))
      || (SearchGiven(search) && c == TextMatches(search.value))
  {
    var byCategory := if CategorySelected(category) then [CategoryIs(category.value)] else [];
    var bySearch := if SearchGiven(search) then [TextMatches(search.value)] else [];
    Query([ActiveOnly] + byCategory + bySearch, true)
  }

  /** The query `useAllProducts()` sends: no filter, newest first. */
  function AllProductsQuery(): (q: Query)
    ensures q.filters == [] && q.newestFirst
  {
    Query([], true)
  }

  /** `column ILIKE '%pattern%'`, wildcards in the pattern taken literally. */
  predicate ILike(column: string, pattern: string) {
    Contains(ToLower(column), ToLower(pattern))
  }

  /** A null column never matches. */
  predicate ILikeNullable(column: Option<string>, pattern: string) {
    column.Some? && ILike(column.value, pattern)
  }

  /** The backend's reading of one clause. */
  predicate Satisfies(p: Product, c: Clause) {
    match c
    case ActiveOnly => p.isActive == Some(true)
    case CategoryIs(category) => p.category == Some(category)
    case TextMatches(pattern) =>
      ILike(p.name, pattern) || ILikeNullable(p.description, pattern) || ILikeNullable(p.category, pattern)
  }

  /** The row filter a list of clauses stands for: every clause holds. */
  function Admits(filters: seq<Clause>): Product -> bool {
    (p: Product) => forall c :: c in filters ==> Satisfies(p, c)
  }

  /** Newest `createdAt` first. */
  predicate NewestFirst(s: seq<Product>) {
    forall i, j :: 0 <= i < j < |s| ==> s[i].createdAt >= s[j].createdAt
  }

  /** Places `p` in front of the first row that is not newer than it. */
  function Insert(p: Product, s: seq<Product>): seq<Product> {
    if s == [] || p.createdAt >= s[0].createdAt then [p] + s else [s[0]] + Insert(p, s[1..])
  }

  /** Inserting keeps every row of the list and adds `p` once. */
  lemma {:induction false} InsertRows(p: Product, s: seq<Product>)
    ensures multiset(Insert(p, s)) == multiset(s) + multiset{p}
    decreases |s|
  {
    if s != [] && p.createdAt < s[0].createdAt {
      InsertRows(p, s[1..]);
      assert s == [s[0]] + s[1..];
    }
  }

  /** A bound on `createdAt` that holds for `p` and for every row of `s` holds for every row of the result. */
  lemma {:induction false} InsertBelow(p: Product, s: seq<Product>, bound: int)
    requires p.createdAt <= bound
    requires forall k :: 0 <= k < |s| ==> s[k].createdAt <= bound
    ensures forall k :: 0 <= k < |Insert(p, s)| ==> Insert(p, s)[k].createdAt <= bound
    decreases |s|
  {
    if s != [] && p.createdAt < s[0].createdAt {
      InsertBelow(p, s[1..], bound);
    }
  }

  /** A row no older than every row of a newest-first list can go in front of it. */
  lemma PrependKeepsOrder(x: Product, s: seq<Product>)
    requires NewestFirst(s)
    requires forall k :: 0 <= k < |s| ==> s[k].createdAt <= x.createdAt
    ensures NewestFirst([x] + s)
  {
    var r := [x] + s;
    forall i, j | 0 <= i < j < |r|
      ensures r[i].createdAt >= r[j].createdAt
    {
      assert r[j] == s[j - 1];
      if i > 0 {
        assert r[i] == s[i - 1];
      }
    }
  }

  lemma {:induction false} InsertKeepsOrder(p: Product, s: seq<Product>)
    requires NewestFirst(s)
    ensures NewestFirst(Insert(p, s))
    ensures multiset(Insert(p, s)) == multiset(s) + multiset{p}
    decreases |s|
  {
    InsertRows(p, s);
    if s != [] && p.createdAt < s[0].createdAt {
      var tail := s[1..];
      InsertKeepsOrder(p, tail);
      forall k | 0 <= k < |tail|
        ensures tail[k].createdAt <= s[0].createdAt
      {
        assert tail[k] == s[k + 1];
      }
      InsertBelow(p, tail, s[0].createdAt);
      PrependKeepsOrder(s[0], Insert(p, tail));
    }
  }

  /** `.order("created_at", { ascending: false })`: the rows, rearranged newest first. */
  function SortNewestFirst(s: seq<Product>): seq<Product> {
    if s == [] then [] else Insert(s[0], SortNewestFirst(s[1..]))
  }

  /** Sorting yields the same rows, newest first. */
  lemma {:induction false} SortNewestFirstSpec(s: seq<Product>)
    ensures NewestFirst(SortNewestFirst(s))
    ensures multiset(SortNewestFirst(s)) == multiset(s)
  {
    if s != [] {
      SortNewestFirstSpec(s[1..]);
      InsertKeepsOrder(s[0], SortNewestFirst(s[1..]));
      assert s == [s[0]] + s[1..];
    }
  }

  /** What the backend returns for a query over the rows of the `products` table. */
  function Run(table: seq<Product>, q: Query): seq<Product> {
    var kept := Filter(table, Admits(q.filters));
    if q.newestFirst then SortNewestFirst(kept) else kept
  }

  /** A query's result holds the rows of the table its clauses admit, each as often as in the table,
      newest first when the query orders. */
  lemma RunSpec(table: seq<Product>, q: Query)
    ensures q.newestFirst ==> NewestFirst(Run(table, q))
    ensures multiset(Run(table, q)) == multiset(Filter(table, Admits(q.filters)))
    ensures forall p :: p in Run(table, q) <==> p in table && Admits(q.filters)(p)
  {
    var kept := Filter(table, Admits(q.filters));
    SortNewestFirstSpec(kept);
    forall p
      ensures p in Run(table, q) <==> p in kept
    {
      assert p in Run(table, q) <==> p in multiset(Run(table, q));
      assert p in kept <==> p in multiset(kept);
    }
  }

  /** What the storefront clauses admit: active, in the chosen category, matching the search text. */
  lemma StorefrontAdmits(p: Product, category: Option<string>, search: Option<string>)
    ensures Admits(ProductsQuery(category, search).filters)(p) <==>
      && p.isActive == Some(true)
      && (CategorySelected(category) ==> p.category == category)
      && (SearchGiven(search) ==> Satisfies(p, TextMatches(search.value)))
  {
    var filters := ProductsQuery(category, search).filters;
    if Admits(filters)(p) {
      assert Satisfies(p, ActiveOnly);
      if CategorySelected(category) {
        assert Satisfies(p, CategoryIs(category.value));
      }
      if SearchGiven(search) {
        assert Satisfies(p, TextMatches(search.value));
      }
    }
    if && p.isActive == Some(true)
       && (CategorySelected(category) ==> p.category == category)
       && (SearchGiven(search) ==> Satisfies(p, TextMatches(search.value)))
    {
      forall c | c in filters
        ensures Satisfies(p, c)
      {
      }
    }
  }

  /** A storefront product list holds exactly the active products of the table that are in the chosen
      category (when one is chosen) and match the search text (when there is some), newest first. */
  lemma StorefrontResult(table: seq<Product>, category: Option<string>, search: Option<string>)
    ensures NewestFirst(Run(table, ProductsQuery(category, search)))
    ensures forall p :: p in Run(table, ProductsQuery(category, search)) <==>
      && p in table
      && p.isActive == Some(true)
      && (CategorySelected(category) ==> p.category == category)
      && (SearchGiven(search) ==> Satisfies(p, TextMatches(search.value)))
  {
    RunSpec(table, ProductsQuery(category, search));
    forall p {
      StorefrontAdmits(p, category, search);
    }
  }

  /** The search text is tested for blankness after trimming but goes into the pattern untrimmed, so
      any white space around it must occur in the matched column too: a match needs a column at least as
      long as the untrimmed text. */
  lemma SearchPatternIsUntrimmed(p: Product, search: string)
    requires SearchGiven(Some(search))
    ensures ProductsQuery(None, Some(search)).filters == [ActiveOnly, TextMatches(search)]
    ensures Satisfies(p, TextMatches(search)) ==>
      || |search| <= |p.name|
      || (p.description.Some? && |search| <= |p.description.value|)
      || (p.category.Some? && |search| <= |p.category.value|)
  {
    if Satisfies(p, TextMatches(search)) {
      if ILike(p.name, search) {
        ILikeNeedsLength(p.name, search);
      } else if ILikeNullable(p.description, search) {
        ILikeNeedsLength(p.description.value, search);
      } else {
        ILikeNeedsLength(p.category.value, search);
      }
    }
  }

  /** A column can only match a pattern at least as long as the pattern. */
  lemma ILikeNeedsLength(column: string, pattern: string)
    requires ILike(column, pattern)
    ensures |pattern| <= |column|
  {
    var i :| 0 <= i <= |ToLower(column)| && ToLower(pattern) <= ToLower(column)[i..];
  }

  /** The admin product list holds every row of the table, each as often as in the table, newest first. */
  lemma AdminResult(table: seq<Product>)
    ensures NewestFirst(Run(table, AllProductsQuery()))
    ensures multiset(Run(table, AllProductsQuery())) == multiset(table)
  {
    FilterAll(table, Admits([]));
    RunSpec(table, AllProductsQuery());
  }

  /** The rows `useCategories` fetches: the category column of every active product whose category is not null. */
  function CategoryRows(table: seq<Product>): (rows: seq<Option<string>>)
    ensures forall c :: c in rows <==> exists p :: p in table && p.isActive == Some(true) && p.category.Some? && p.category == c
    decreases |table|
  {
    if table == [] then []
    else
      var prefix, last := table[..|table| - 1], table[|table| - 1];
      assert forall p :: p in table <==> p in prefix || p == last;
      CategoryRows(prefix) + (if last.isActive == Some(true) && last.category.Some? then [last.category] else [])
  }

  /** `rows.filter(Boolean)` after `map(p => p.category)`: the truthy category values, in row order. */
  function TruthyValues(rows: seq<Option<string>>): (r: seq<string>)
    ensures forall c :: c in r <==> Some(c) in rows && c != ""
    decreases |rows|
  {
    if rows == [] then []
    else
      var last := rows[|rows| - 1];
      TruthyValues(rows[..|rows| - 1]) + (if Truthy(last) then [last.value] else [])
  }

  /** The category values wrapped back as nullable column values. */
  function Present(values: seq<string>): (r: seq<Option<string>>)
    ensures |r| == |values| && forall k :: 0 <= k < |r| ==> r[k] == Some(values[k])
  {
    seq(|values|, k requires 0 <= k < |values| => Some(values[k]))
  }

  /** The truthy values are the truthy rows, kept in row order: they are exactly what filtering the rows
      on truthiness gives, so they sit in the rows at increasing positions. */
  lemma {:induction false} TruthyValuesInRowOrder(rows: seq<Option<string>>)
    ensures Present(TruthyValues(rows)) == Filter(rows, Truthy)
    ensures IsSublist(Present(TruthyValues(rows)), rows)
    decreases |rows|
  {
    if rows != [] {
      var prefix, last := rows[..|rows| - 1], rows[|rows| - 1];
      TruthyValuesInRowOrder(prefix);
      var head := TruthyValues(prefix);
      if Truthy(last) {
        assert TruthyValues(rows) == head + [last.value];
        assert Present(head + [last.value]) == Present(head) + [last];
      } else {
        assert TruthyValues(rows) == head;
      }
    }
    FilterIsSublist(rows, Truthy);
  }

  /** `[...new Set(values)]` over the truthy category values. */
  function UniqueCategories(rows: seq<Option<string>>): seq<string> {
    Dedup(TruthyValues(rows))
  }

  /** The category list has no repeats, holds exactly the non-empty categories among the rows, and keeps
      them in the order in which they first occur. */
  lemma UniqueCategoriesSpec(rows: seq<Option<string>>)
    ensures Distinct(UniqueCategories(rows))
    ensures forall c :: c in UniqueCategories(rows) <==> Some(c) in rows && c != ""
    ensures forall i, j :: 0 <= i < j < |UniqueCategories(rows)| ==>
      UniqueCategories(rows)[i] in TruthyValues(rows) && UniqueCategories(rows)[j] in TruthyValues(rows) &&
      FirstIndex(TruthyValues(rows), UniqueCategories(rows)[i]) < FirstIndex(TruthyValues(rows), UniqueCategories(rows)[j])
  {
    DedupDistinct(TruthyValues(rows));
    DedupFirstOccurrenceOrder(TruthyValues(rows));
  }

  /** Over the table: a category is listed iff some active product carries it and it is not empty. */
  lemma CategoriesOfTable(table: seq<Product>, c: string)
    ensures c in UniqueCategories(CategoryRows(table)) <==>
      c != "" && exists p :: p in table && p.isActive == Some(true) && p.category == Some(c)
  {
  }
}
