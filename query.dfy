/**
  The category-scoped article query: resolve a category slug to its id,
  keep the rows of that category, order them by id descending and, when a
  limit is given, keep only the first rows.
 */
module Query {
  import opened Wrappers
  import opened Articles

  /** The `article_category` table as a map from slug to id. */
  type Categories = map<string, int>

  /** The category id of `slug`, or NULL when no category has that slug. */
  function ResolveSlug(categories: Categories, slug: string): Option<int> {
    if slug in categories then Some(categories[slug]) else None
  }

  /** PHP truthiness of the `$limit` argument: NULL and 0 are false. */
  predicate Truthy(limit: Option<nat>) {
    limit.Some? && limit.value != 0
  }

  /**
    The rows of `table` that satisfy `category_id = c`; with `c` NULL this
    is Yii's `category_id IS NULL`. The table's order is kept.
   */
  function Matching(table: seq<Article>, c: Option<int>): seq<Article> {
    if table == [] then []
    else (if table[0].categoryId == c then [table[0]] else []) + Matching(table[1..], c)
  }

  /** Each row of the category is kept as often as it is stored; no other row is kept. */
  lemma {:induction false} MatchingCounts(table: seq<Article>, c: Option<int>)
    ensures forall a :: multiset(Matching(table, c))[a] == if a.categoryId == c then multiset(table)[a] else 0
    ensures forall a :: a in Matching(table, c) <==> a in table && a.categoryId == c
  {
    if table != [] {
      assert table == [table[0]] + table[1..];
      MatchingCounts(table[1..], c);
    }
  }

  /** Ordered by id, largest first. */
  predicate Descending(s: seq<Article>) {
    forall i, j | 0 <= i < j < |s| :: s[i].id >= s[j].id
  }

  predicate StrictlyDescending(s: seq<Article>) {
    forall i, j | 0 <= i < j < |s| :: s[i].id > s[j].id
  }

  /** No two rows share an id, as for a primary key. */
  predicate DistinctIds(s: seq<Article>) {
    forall i, j | 0 <= i < j < |s| :: s[i].id != s[j].id
  }

  /** `x` placed before the first row whose id does not exceed its own. */
  function Insert(x: Article, s: seq<Article>): seq<Article> {
    if s == [] then [x]
    else if x.id >= s[0].id then [x] + s
    else [s[0]] + Insert(x, s[1..])
  }

  lemma {:induction false} InsertSorts(x: Article, s: seq<Article>)
    requires Descending(s)
    ensures Descending(Insert(x, s))
    ensures multiset(Insert(x, s)) == multiset(s) + multiset{x}
  {
    if s != [] && x.id < s[0].id {
      DescendingTail(s);
      InsertSorts(x, s[1..]);
      InsertStep(x, s[0], s[1..]);
      assert s == [s[0]] + s[1..];
    }
  }

  /** The tail of a descending sequence is descending and lies below its head. */
  lemma DescendingTail(s: seq<Article>)
    requires Descending(s) && s != []
    ensures Descending(s[1..])
    ensures forall k | 0 <= k < |s[1..]| :: s[0].id >= s[1..][k].id
  {
    assert forall k | 0 <= k < |s[1..]| :: s[1..][k] == s[k + 1];
  }

  /** Inserting below the head `h`: the head stays in front of the tail's insertion. */
  lemma InsertStep(x: Article, h: Article, rest: seq<Article>)
    requires x.id < h.id
    requires forall k | 0 <= k < |rest| :: h.id >= rest[k].id
    requires Descending(Insert(x, rest))
    requires multiset(Insert(x, rest)) == multiset(rest) + multiset{x}
    ensures Descending(Insert(x, [h] + rest))
    ensures multiset(Insert(x, [h] + rest)) == multiset([h] + rest) + multiset{x}
  {
    var t := Insert(x, rest);
    assert ([h] + rest)[1..] == rest;
    assert Insert(x, [h] + rest) == [h] + t;
    HeadBoundsInsert(h, x, rest, t);
    ConsDescending(h, t);
  }

  /** A row above every row of `rest` and above `x` is above every row of a rearrangement of both. */
  lemma HeadBoundsInsert(h: Article, x: Article, rest: seq<Article>, t: seq<Article>)
    requires forall k | 0 <= k < |rest| :: h.id >= rest[k].id
    requires h.id > x.id
    requires multiset(t) == multiset(rest) + multiset{x}
    ensures forall k | 0 <= k < |t| :: h.id >= t[k].id
  {
    forall k | 0 <= k < |t| ensures h.id >= t[k].id {
      assert t[k] in multiset(rest) + multiset{x};
      if t[k] != x {
        assert t[k] in rest;
      }
    }
  }

  /** Putting a row above every row of a descending sequence in front keeps it descending. */
  lemma ConsDescending(h: Article, t: seq<Article>)
    requires Descending(t)
    requires forall k | 0 <= k < |t| :: h.id >= t[k].id
    ensures Descending([h] + t)
  {
    var u := [h] + t;
    assert forall k | 1 <= k < |u| :: u[k] == t[k - 1];
  }

  /** `ORDER BY id DESC`, as an insertion sort. */
  function SortByIdDesc(s: seq<Article>): seq<Article> {
    if s == [] then [] else Insert(s[0], SortByIdDesc(s[1..]))
  }

  /** The sort yields the same rows, by id from largest to smallest. */
  lemma {:induction false} SortByIdDescSorts(s: seq<Article>)
    ensures Descending(SortByIdDesc(s))
    ensures multiset(SortByIdDesc(s)) == multiset(s)
    ensures |SortByIdDesc(s)| == |s|
  {
    if s != [] {
      assert s == [s[0]] + s[1..];
      SortByIdDescSorts(s[1..]);
      InsertSorts(s[0], SortByIdDesc(s[1..]));
    }
    assert |SortByIdDesc(s)| == |multiset(SortByIdDesc(s))|;
  }

  /** `LIMIT n` when a limit is set, all rows otherwise. */
  function Take<T>(s: seq<T>, limit: Option<nat>): (r: seq<T>)
    ensures |r| == if limit.Some? && limit.value < |s| then limit.value else |s|
    ensures r == s[..|r|]
  {
    if limit.Some? && limit.value < |s| then s[..limit.value] else s
  }

  /**
    The SQL the query object stands for: `WHERE category_id = c ORDER BY id DESC`,
    with `LIMIT n` when a limit is set.
   */
  function Rows(table: seq<Article>, c: Option<int>, limit: Option<nat>): seq<Article> {
    Take(SortByIdDesc(Matching(table, c)), limit)
  }

  /** The rows `getByCategory` returns for an already resolved category id. */
  function ByCategory(table: seq<Article>, c: Option<int>, limit: Option<nat>): seq<Article> {
    Rows(table, c, if Truthy(limit) then limit else None)
  }

  /**
    Every row of the query is a stored row of the category, the rows come by
    id descending, a limit bounds their number, and without a limit they are
    all the rows of the category.
   */
  lemma RowsFacts(table: seq<Article>, c: Option<int>, limit: Option<nat>)
    ensures forall a | a in Rows(table, c, limit) :: a in table && a.categoryId == c
    ensures multiset(Rows(table, c, limit)) <= multiset(Matching(table, c))
    ensures Descending(Rows(table, c, limit))
    ensures limit.Some? ==> |Rows(table, c, limit)| <= limit.value
    ensures limit.None? ==> multiset(Rows(table, c, limit)) == multiset(Matching(table, c))
  {
    var m := Matching(table, c);
    var sorted := SortByIdDesc(m);
    MatchingCounts(table, c);
    SortByIdDescSorts(m);
    TakeSorted(sorted, limit);
    var r := Rows(table, c, limit);
    forall a | a in r ensures a in table && a.categoryId == c {
      assert a in multiset(r);
      assert a in multiset(m);
    }
  }

  /** A prefix of a sorted sequence is sorted and holds some of its rows. */
  lemma TakeSorted(sorted: seq<Article>, limit: Option<nat>)
    requires Descending(sorted)
    ensures multiset(Take(sorted, limit)) <= multiset(sorted)
    ensures Descending(Take(sorted, limit))
    ensures limit.None? ==> Take(sorted, limit) == sorted
  {
    var r := Take(sorted, limit);
    PrefixIsSubMultiset(sorted, |r|);
    assert forall k | 0 <= k < |r| :: r[k] == sorted[k];
  }

  /**
    The query object `find()->where(['category_id' => c])->orderBy(['id' => SORT_DESC])`,
    whose limit the caller may set before asking for all rows.
   */
  class ArticleQuery {
    const table: seq<Article>
    const categoryId: Option<int>
    var limit: Option<nat>

    constructor (table: seq<Article>, categoryId: Option<int>)
      ensures this.table == table && this.categoryId == categoryId
      ensures limit == None
    {
      this.table := table;
      this.categoryId := categoryId;
      limit := None;
    }

    /** `$query->limit(n)`. */
    method SetLimit(n: nat)
      modifies this
      ensures limit == Some(n)
    {
      limit := Some(n);
    }

    /** `$query->all()`: the matching rows by id descending, at most `limit` of them. */
    function All(): (r: seq<Article>)
      reads this
      ensures r == Rows(table, categoryId, limit)
      ensures forall a | a in r :: a in table && a.categoryId == categoryId
      ensures Descending(r)
      ensures limit.Some? ==> |r| <= limit.value
    {
      RowsFacts(table, categoryId, limit);
      Rows(table, categoryId, limit)
    }
  }

  /** `Article::getByCategory($category, $limit)`. */
  method GetByCategory(table: seq<Article>, categories: Categories, slug: string, limit: Option<nat>)
    returns (items: seq<Article>)
    ensures items == ByCategory(table, ResolveSlug(categories, slug), limit)
  {
    var categoryId := ResolveSlug(categories, slug);
    var query := new ArticleQuery(table, categoryId);
    if Truthy(limit) {
      query.SetLimit(limit.value);
    }
    items := query.All();
  }

  /** Every row returned belongs to the requested category and is stored in the table. */
  lemma ByCategoryMembers(table: seq<Article>, c: Option<int>, limit: Option<nat>)
    ensures forall a | a in ByCategory(table, c, limit) :: a in table && a.categoryId == c
    ensures multiset(ByCategory(table, c, limit)) <= multiset(Matching(table, c))
  {
    RowsFacts(table, c, if Truthy(limit) then limit else None);
  }

  /** The rows come by id descending, strictly so when ids are unique. */
  lemma ByCategoryOrdered(table: seq<Article>, c: Option<int>, limit: Option<nat>)
    ensures Descending(ByCategory(table, c, limit))
    ensures DistinctIds(table) ==> StrictlyDescending(ByCategory(table, c, limit))
  {
    RowsFacts(table, c, if Truthy(limit) then limit else None);
    if DistinctIds(table) {
      MatchingCounts(table, c);
      assert multiset(Matching(table, c)) <= multiset(table);
      DistinctIdsOfSubMultiset(table, ByCategory(table, c, limit));
    }
  }

  /** Without a truthy limit, every row of the category is returned, each as often as it is stored. */
  lemma ByCategoryUnlimited(table: seq<Article>, c: Option<int>, limit: Option<nat>)
    requires !Truthy(limit)
    ensures multiset(ByCategory(table, c, limit)) == multiset(Matching(table, c))
    ensures |ByCategory(table, c, limit)| == |Matching(table, c)|
    ensures forall a :: a in ByCategory(table, c, limit) <==> a in table && a.categoryId == c
  {
    var r := ByCategory(table, c, limit);
    RowsFacts(table, c, None);
    MatchingCounts(table, c);
    assert |r| == |multiset(r)| == |multiset(Matching(table, c))| == |Matching(table, c)|;
    forall a ensures a in r <==> a in table && a.categoryId == c {
      assert a in r <==> a in multiset(r);
      assert a in Matching(table, c) <==> a in multiset(Matching(table, c));
    }
  }

  /**
    With a truthy limit `n`, exactly `min(n, matches)` rows are returned, and
    no matching row left out has a larger id than a row returned (a smaller
    one, when ids are unique).
   */
  lemma ByCategoryLimited(table: seq<Article>, c: Option<int>, limit: Option<nat>)
    requires Truthy(limit)
    ensures var n := |Matching(table, c)|;
      |ByCategory(table, c, limit)| == if limit.value < n then limit.value else n
    ensures forall a, b | a in ByCategory(table, c, limit) && b in table && b.categoryId == c
                          && b !in ByCategory(table, c, limit) :: a.id >= b.id
    ensures DistinctIds(table) ==>
      forall a, b | a in ByCategory(table, c, limit) && b in table && b.categoryId == c
                    && b !in ByCategory(table, c, limit) :: a.id > b.id
  {
    var m := Matching(table, c);
    var sorted := SortByIdDesc(m);
    var r := ByCategory(table, c, limit);
    MatchingCounts(table, c);
    SortByIdDescSorts(m);
    assert r == sorted[..|r|];
    if DistinctIds(table) {
      assert multiset(m) <= multiset(table);
      DistinctIdsOfSubMultiset(table, sorted);
    }
    forall a, b | a in r && b in table && b.categoryId == c && b !in r
      ensures a.id >= b.id
      ensures DistinctIds(table) ==> a.id > b.id
    {
      assert b in multiset(m);
      assert b in sorted;
      PrefixDominates(sorted, |r|, a, b);
    }
  }

  /** In a descending sequence, a row of a prefix outranks every row outside it. */
  lemma PrefixDominates(sorted: seq<Article>, n: nat, a: Article, b: Article)
    requires Descending(sorted) && n <= |sorted|
    requires a in sorted[..n] && b in sorted && b !in sorted[..n]
    ensures a.id >= b.id
    ensures DistinctIds(sorted) ==> a.id > b.id
  {
    var i :| 0 <= i < n && sorted[..n][i] == a;
    var j :| 0 <= j < |sorted| && sorted[j] == b;
    assert forall k | 0 <= k < n :: sorted[k] in sorted[..n];
    assert sorted[i] == a && n <= j;
  }

  /**
    An unknown slug resolves to NULL, which makes the filter
    `category_id IS NULL`; a table whose every row has a category has no
    such row, so nothing is returned.
   */
  lemma UnknownSlugYieldsNothing(table: seq<Article>, categories: Categories, slug: string, limit: Option<nat>)
    requires slug !in categories
    requires forall a | a in table :: a.categoryId.Some?
    ensures ByCategory(table, ResolveSlug(categories, slug), limit) == []
  {
    var r := ByCategory(table, None, limit);
    RowsFacts(table, None, if Truthy(limit) then limit else None);
    assert r == [] by {
      assert forall k | 0 <= k < |r| :: r[k] in r;
    }
  }

  /** Records that pass the rules all have a category, so an unknown slug finds none of them. */
  lemma UnknownSlugOnValidTable(table: seq<Article>, categories: Categories, slug: string, limit: Option<nat>)
    requires slug !in categories
    requires forall a | a in table :: ValidArticle(a)
    ensures ByCategory(table, ResolveSlug(categories, slug), limit) == []
  {
    forall a | a in table ensures a.categoryId.Some? {
      ValidArticleHasCategory(a);
    }
    UnknownSlugYieldsNothing(table, categories, slug, limit);
  }

  // Unique ids survive taking a sub-multiset of the rows.

  lemma {:induction false} AtMostOnce(s: seq<Article>)
    requires DistinctIds(s)
    ensures forall x :: multiset(s)[x] <= 1
  {
    if s != [] {
      var t := s[1..];
      assert s == [s[0]] + t;
      assert DistinctIds(t) by {
        forall i, j | 0 <= i < j < |t| ensures t[i].id != t[j].id {
          assert t[i] == s[i + 1] && t[j] == s[j + 1];
        }
      }
      AtMostOnce(t);
      forall k | 0 <= k < |t| ensures t[k] != s[0] {
        assert s[k + 1] == t[k];
      }
      assert s[0] !in t;
    }
  }

  lemma PrefixIsSubMultiset<T>(s: seq<T>, n: nat)
    requires n <= |s|
    ensures multiset(s[..n]) <= multiset(s)
  {
    assert s == s[..n] + s[n..];
  }

  lemma TwoIndices(t: seq<Article>, i: nat, j: nat)
    requires i < j < |t|
    ensures t[i] == t[j] ==> multiset(t)[t[i]] >= 2
  {
    assert t == t[..j] + t[j..];
    assert t[i] in t[..j];
    assert t[j] in t[j..];
  }

  lemma DistinctIdsOfSubMultiset(s: seq<Article>, t: seq<Article>)
    requires DistinctIds(s)
    requires multiset(t) <= multiset(s)
    ensures DistinctIds(t)
  {
    AtMostOnce(s);
    forall i, j | 0 <= i < j < |t| ensures t[i].id != t[j].id {
      TwoIndices(t, i, j);
      assert t[i] in multiset(s) && t[j] in multiset(s);
      var p :| 0 <= p < |s| && s[p] == t[i];
      var q :| 0 <= q < |s| && s[q] == t[j];
      assert multiset(s)[t[i]] <= 1;
    }
  }
}
