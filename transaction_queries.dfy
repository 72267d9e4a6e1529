/**
 * The read side of the transaction controller: the filtered, newest-first,
 * paginated listings (`index`, `productHistory`) and the statistics over a
 * time window (`stats`). Timestamps are integer seconds.
 */
module TransactionQueries {
  import opened Wrappers
  import opened Entities
  import opened Seqs
  import opened Ledger

  /** Query-string parameters of `GET transactions`. `startDate`/`endDate` are day numbers. */
  datatype ListFilter = ListFilter(
    kind: Option<string>,
    productId: Option<int>,
    startDate: Option<int>,
    endDate: Option<int>)

  const SecondsPerDay: int := 86400

  /** The calendar day of a timestamp, which is what `whereDate` compares. */
  function Day(ts: int): int
  {
    ts / SecondsPerDay
  }

  /** The type filter is applied only when the parameter spells one of the two types. */
  function TypeFilter(kind: Option<string>): (r: Option<TxnType>)
    ensures r.Some? <==> kind == Some("stock_in") || kind == Some("stock_out")
  {
    if kind.Some? then ParseType(kind.value) else None
  }

  /** Row `t` passes the filters of `index`; a `product_id` of 0 is falsy and ignored. */
  predicate Matches(f: ListFilter, t: Txn)
  {
    && (TypeFilter(f.kind).Some? ==> t.kind == TypeFilter(f.kind).value)
    && (f.productId.Some? && f.productId.value != 0 ==> t.productId == f.productId.value)
    && (f.startDate.Some? ==> Day(t.createdAt) >= f.startDate.value)
    && (f.endDate.Some? ==> Day(t.createdAt) <= f.endDate.value)
  }

  /** The filters of `index`, as a test on rows. */
  function Matcher(f: ListFilter): Txn -> bool
  {
    (t: Txn) => Matches(f, t)
  }

  /** Sort key for `orderBy('created_at', 'desc')`. */
  function NewestFirstKey(t: Txn): int
  {
    -t.createdAt
  }

  /** The rows of `s`, latest `created_at` first. */
  function NewestFirst(s: seq<Txn>): (r: seq<Txn>)
    ensures multiset(r) == multiset(s)
    ensures Ascending(r, NewestFirstKey)
  {
    SortBy(s, NewestFirstKey)
  }

  /** Ascending in the newest-first key is descending in `created_at`. */
  lemma NewestFirstDescending(r: seq<Txn>)
    requires Ascending(r, NewestFirstKey)
    ensures forall i, j :: 0 <= i < j < |r| ==> r[i].createdAt >= r[j].createdAt
  {
    forall i, j | 0 <= i < j < |r|
      ensures r[i].createdAt >= r[j].createdAt
    {
      assert NewestFirstKey(r[i]) <= NewestFirstKey(r[j]);
    }
  }

  /** Everything `index` would list over all its pages. */
  function Listing(ledger: seq<Txn>, f: ListFilter): (r: seq<Txn>)
    ensures forall t :: t in r <==> t in ledger && Matches(f, t)
    ensures multiset(r) == multiset(Filter(ledger, Matcher(f)))
    ensures |r| <= |ledger|
    ensures Ascending(r, NewestFirstKey)
  {
    var matching := Filter(ledger, Matcher(f));
    var r := NewestFirst(matching);
    assert forall t :: t in r <==> t in multiset(r);
    assert forall t :: t in matching <==> t in multiset(matching);
    assert |r| == |multiset(r)| == |multiset(matching)| == |matching|;
    r
  }

  /** `TransactionController::index`: page `page` of the filtered, newest-first listing. */
  function Index(ledger: seq<Txn>, f: ListFilter, page: Option<int>): (r: seq<Txn>)
    ensures var all, lo := Listing(ledger, f), (CurrentPage(page) - 1) * PerPage;
      && |r| == (if |all| <= lo then 0 else if |all| - lo < PerPage then |all| - lo else PerPage)
      && forall i :: 0 <= i < |r| ==> lo + i < |all| && r[i] == all[lo + i]
    ensures forall t :: t in r ==> t in ledger && Matches(f, t)
    ensures forall i, j :: 0 <= i < j < |r| ==> r[i].createdAt >= r[j].createdAt
  {
    var all := Listing(ledger, f);
    PageAscending(all, NewestFirstKey, page);
    NewestFirstDescending(Page(all, page));
    Page(all, page)
  }

  /** Every stored transaction that passes the filters is on some page of `index`. */
  lemma IndexComplete(ledger: seq<Txn>, f: ListFilter, t: Txn)
    requires t in ledger && Matches(f, t)
    ensures exists p :: p >= 1 && t in Index(ledger, f, Some(p))
  {
    var all := Listing(ledger, f);
    OnSomePage(all, t);
    var p :| p >= 1 && t in Page(all, Some(p));
    assert Index(ledger, f, Some(p)) == Page(all, Some(p));
  }

  /**
   * A `type` parameter other than `stock_in`/`stock_out` is ignored rather than
   * rejected: the listing is the one without a type parameter.
   */
  lemma UnknownTypeIgnored(ledger: seq<Txn>, f: ListFilter, page: Option<int>)
    requires f.kind.Some? && f.kind.value != "stock_in" && f.kind.value != "stock_out"
    ensures Index(ledger, f, page) == Index(ledger, f.(kind := None), page)
  {
    var g := f.(kind := None);
    assert forall t :: Matches(f, t) == Matches(g, t);
    FilterCongruent(ledger, Matcher(f), Matcher(g));
  }

  /** Row `t` belongs to the history of product `productId` under the `type` parameter. */
  predicate InHistory(productId: int, kind: Option<string>, t: Txn)
  {
    t.productId == productId && (TypeFilter(kind).Some? ==> t.kind == TypeFilter(kind).value)
  }

  /** The history filter, as a test on rows. */
  function HistoryOf(productId: int, kind: Option<string>): Txn -> bool
  {
    (t: Txn) => InHistory(productId, kind, t)
  }

  /** Everything `productHistory` would list over all its pages. */
  function ProductHistoryAll(ledger: seq<Txn>, productId: int, kind: Option<string>): (r: seq<Txn>)
    ensures forall t :: t in r <==> t in ledger && InHistory(productId, kind, t)
    ensures multiset(r) == multiset(Filter(ledger, HistoryOf(productId, kind)))
    ensures forall i, j :: 0 <= i < j < |r| ==> r[i].createdAt >= r[j].createdAt
  {
    var matching := Filter(ledger, HistoryOf(productId, kind));
    var r := NewestFirst(matching);
    assert forall t :: t in r <==> t in multiset(r);
    assert forall t :: t in matching <==> t in multiset(matching);
    NewestFirstDescending(r);
    r
  }

  /**
   * `TransactionController::productHistory`: page `page` of one product's
   * transactions, of the requested type when one is named, newest first.
   */
  function ProductHistory(ledger: seq<Txn>, productId: int, kind: Option<string>, page: Option<int>): (r: seq<Txn>)
    ensures var all, lo := ProductHistoryAll(ledger, productId, kind), (CurrentPage(page) - 1) * PerPage;
      && |r| == (if |all| <= lo then 0 else if |all| - lo < PerPage then |all| - lo else PerPage)
      && forall i :: 0 <= i < |r| ==> lo + i < |all| && r[i] == all[lo + i]
    ensures forall t :: t in r ==> t in ledger && t.productId == productId
    ensures forall t :: t in r && TypeFilter(kind).Some? ==> t.kind == TypeFilter(kind).value
    ensures forall i, j :: 0 <= i < j < |r| ==> r[i].createdAt >= r[j].createdAt
  {
    var all := ProductHistoryAll(ledger, productId, kind);
    var r := Page(all, page);
    assert forall i :: 0 <= i < |r| ==> r[i] in all;
    r
  }

  /** Every stored transaction of the product, of the requested type, is on some page of its history. */
  lemma ProductHistoryComplete(ledger: seq<Txn>, productId: int, kind: Option<string>, t: Txn)
    requires t in ledger && t.productId == productId
    requires TypeFilter(kind).Some? ==> t.kind == TypeFilter(kind).value
    ensures exists p :: p >= 1 && t in ProductHistory(ledger, productId, kind, Some(p))
  {
    var all := ProductHistoryAll(ledger, productId, kind);
    assert InHistory(productId, kind, t);
    OnSomePage(all, t);
    var p :| p >= 1 && t in Page(all, Some(p));
    assert ProductHistory(ledger, productId, kind, Some(p)) == Page(all, Some(p));
  }

  /** One entry of `most_active_products`: a product and its transaction count. */
  datatype Activity = Activity(productId: int, count: nat)

  /** The response of `stats`. Quantities are summed as integers. */
  datatype Stats = Stats(
    total: nat,
    stockInCount: nat,
    stockOutCount: nat,
    stockInSum: int,
    stockOutSum: int,
    mostActive: seq<Activity>)

  /** `whereBetween('created_at', [start, end])`: both ends included. */
  function InWindow(ledger: seq<Txn>, start: int, end: int): (w: seq<Txn>)
    ensures forall t :: t in w <==> t in ledger && start <= t.createdAt <= end
  {
    Filter(ledger, (t: Txn) => start <= t.createdAt <= end)
  }

  /** Number of transactions of product `id` in `w`. */
  function CountOf(w: seq<Txn>, id: int): nat
  {
    |OfProduct(w, id)|
  }

  lemma CountOfPositive(w: seq<Txn>, id: int)
    ensures CountOf(w, id) > 0 <==> exists t :: t in w && t.productId == id
  {
    var r := OfProduct(w, id);
    if exists t :: t in w && t.productId == id {
      var t :| t in w && t.productId == id;
      assert t in r;
    }
    if |r| > 0 {
      assert r[0] in r;
    }
  }

  /** The distinct product ids of `w`, in order of first appearance (`groupBy('product_id')`). */
  function ProductIds(w: seq<Txn>): (r: seq<int>)
    ensures Distinct(r)
    ensures forall id :: id in r <==> exists t :: t in w && t.productId == id
  {
    if w == [] then []
    else
      var w' := w[..|w| - 1];
      var last := w[|w| - 1];
      var d := ProductIds(w');
      assert forall t :: t in w <==> t in w' || t == last;
      if last.productId in d then d else d + [last.productId]
  }

  /** One `Activity` per product occurring in `w`, in order of first appearance. */
  function Counts(w: seq<Txn>): (r: seq<Activity>)
    ensures forall i :: 0 <= i < |r| ==> r[i].count == CountOf(w, r[i].productId) > 0
    ensures forall id :: CountOf(w, id) > 0 ==> Activity(id, CountOf(w, id)) in r
    ensures Distinct(r)
  {
    var ids := ProductIds(w);
    var r := seq(|ids|, i requires 0 <= i < |ids| => Activity(ids[i], CountOf(w, ids[i])));
    forall i | 0 <= i < |r|
      ensures r[i].count == CountOf(w, r[i].productId) > 0
    {
      assert ids[i] in ids;
      CountOfPositive(w, ids[i]);
    }
    forall id | CountOf(w, id) > 0
      ensures Activity(id, CountOf(w, id)) in r
    {
      CountOfPositive(w, id);
      assert id in ids;
      assert exists k :: 0 <= k < |ids| && ids[k] == id;
      var k :| 0 <= k < |ids| && ids[k] == id;
      assert r[k] == Activity(id, CountOf(w, id));
    }
    r
  }

  /** Sort key for `orderBy('transaction_count', 'desc')`. */
  function BusiestFirstKey(a: Activity): int
  {
    -(a.count as int)
  }

  const MostActiveLimit: nat := 5

  /** The per-product counts of `w`, busiest first, before the limit is applied. */
  function Busiest(w: seq<Txn>): (r: seq<Activity>)
    ensures Ascending(r, BusiestFirstKey)
    ensures forall i :: 0 <= i < |r| ==> r[i].count == CountOf(w, r[i].productId) > 0
    ensures forall id :: CountOf(w, id) > 0 ==> Activity(id, CountOf(w, id)) in r
    ensures Distinct(r)
  {
    var counts := Counts(w);
    var r := SortBy(counts, BusiestFirstKey);
    PermutationMembers(counts, r);
    forall i | 0 <= i < |r|
      ensures r[i].count == CountOf(w, r[i].productId) > 0
    {
      assert r[i] in counts;
    }
    PermutationDistinct(counts, r);
    r
  }

  /** The first `MostActiveLimit` entries of `Busiest(w)`. */
  function Top(w: seq<Txn>): seq<Activity>
  {
    Take(Busiest(w), MostActiveLimit)
  }

  /** The top entries are ordered by count, name each product once and carry its true count. */
  lemma TopOrdered(w: seq<Txn>)
    ensures forall i, j :: 0 <= i < j < |Top(w)| ==> Top(w)[i].count >= Top(w)[j].count
    ensures forall i, j :: 0 <= i < j < |Top(w)| ==> Top(w)[i].productId != Top(w)[j].productId
    ensures forall i :: 0 <= i < |Top(w)| ==> Top(w)[i].count == CountOf(w, Top(w)[i].productId) > 0
  {
    var sorted := Busiest(w);
    var r := Top(w);
    forall i, j | 0 <= i < j < |r|
      ensures r[i].count >= r[j].count && r[i].productId != r[j].productId
    {
      assert r[i] == sorted[i] && r[j] == sorted[j];
      assert BusiestFirstKey(sorted[i]) <= BusiestFirstKey(sorted[j]);
    }
  }

  /** `most_active_products`: the busiest products of `w`, at most five, busiest first. */
  function MostActive(w: seq<Txn>): (r: seq<Activity>)
    ensures |r| <= MostActiveLimit
    ensures forall i, j :: 0 <= i < j < |r| ==> r[i].count >= r[j].count
    ensures forall i :: 0 <= i < |r| ==> r[i].count == CountOf(w, r[i].productId) > 0
    ensures forall i, j :: 0 <= i < j < |r| ==> r[i].productId != r[j].productId
  {
    TopOrdered(w);
    Top(w)
  }

  /** A product with transactions in `w` that is left out of the top is no busier than any listed one. */
  lemma MostActiveComplete(w: seq<Txn>, id: int)
    requires CountOf(w, id) > 0
    requires forall i :: 0 <= i < |MostActive(w)| ==> MostActive(w)[i].productId != id
    ensures |MostActive(w)| == MostActiveLimit
    ensures forall i :: 0 <= i < |MostActive(w)| ==> MostActive(w)[i].count >= CountOf(w, id)
  {
    var sorted := Busiest(w);
    var r := MostActive(w);
    var x := Activity(id, CountOf(w, id));
    assert x in sorted;
    assert x !in r;
    OutsideTake(sorted, BusiestFirstKey, MostActiveLimit, x);
    forall i | 0 <= i < |r|
      ensures r[i].count >= CountOf(w, id)
    {
      assert BusiestFirstKey(r[i]) <= BusiestFirstKey(x);
    }
  }

  /**
   * `TransactionController::stats` over the window `[start, end]` (the request's
   * dates, or the caller-supplied current month).
   */
  function ComputeStats(ledger: seq<Txn>, start: int, end: int): (r: Stats)
    ensures r.total == |InWindow(ledger, start, end)|
    ensures r.total == r.stockInCount + r.stockOutCount
    ensures r.stockInCount == |Filter(InWindow(ledger, start, end), OfKind(StockIn))|
    ensures r.stockOutCount == |Filter(InWindow(ledger, start, end), OfKind(StockOut))|
    ensures r.stockInSum == Total(Filter(InWindow(ledger, start, end), OfKind(StockIn)))
    ensures r.stockOutSum == Total(Filter(InWindow(ledger, start, end), OfKind(StockOut)))
    ensures r.mostActive == MostActive(InWindow(ledger, start, end))
    ensures |r.mostActive| <= MostActiveLimit
  {
    var w := InWindow(ledger, start, end);
    CountsPartition(w);
    KindsByFilter(w, StockIn);
    KindsByFilter(w, StockOut);
    Stats(|w|, CountKind(w, StockIn), CountKind(w, StockOut), SumKind(w, StockIn), SumKind(w, StockOut), MostActive(w))
  }
}
