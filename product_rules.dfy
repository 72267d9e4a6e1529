/**
 * The catalog rules of the product controller that do not change state:
 * request validation for `store`/`update`, the stored image path, and the
 * `index` and `lowStock` listings.
 */
module ProductRules {
  import opened Wrappers
  import opened Entities
  import opened Seqs
  import opened Keys
  import opened PhpText

  /**
   * An uploaded image file: the extension guessed from its contents (what
   * `mimes` checks), the extension of the client's file name (what the stored
   * name uses, checked only against the PHP extensions) and its size in
   * kilobytes.
   */
  datatype Upload = Upload(detectedType: string, clientExtension: string, kilobytes: int)

  /** The fields of a `store`/`update` request; `None` is an absent or empty field. */
  datatype ProductRequest = ProductRequest(
    name: Option<string>,
    description: Option<string>,
    image: Option<Upload>,
    categoryId: Option<int>,
    stock: Option<int>,
    price: Option<int>)

  const MaxNameLength: nat := 255
  const MaxImageKilobytes: int := 2048
  const DefaultLowStockThreshold: int := 10

  /**
   * `image|mimes:jpeg,png,jpg,gif|max:2048`: the type is judged by the
   * contents; the client's file name only matters through the framework's
   * refusal of PHP extensions, which `mimes` applies whenever `php` is not
   * itself listed.
   */
  predicate ImageAccepted(u: Upload)
  {
    && u.detectedType in ["jpeg", "png", "jpg", "gif"]
    && !PhpExtension(u.clientExtension)
    && u.kilobytes <= MaxImageKilobytes
  }

  /** The client extensions `mimes` refuses, after trimming and ASCII lower-casing. */
  predicate PhpExtension(extension: string)
  {
    Trim(Lower(extension)) in ["php", "php3", "php4", "php5", "php7", "php8", "phtml", "phar"]
  }

  /** A script disguised as an image is refused whatever its contents; the same upload named `.png` passes. */
  lemma DisguisedScriptRefused()
    ensures !ImageAccepted(Upload("png", " PHP", 10))
    ensures ImageAccepted(Upload("png", "png", 10))
  {
    assert Lower(" PHP") == " php";
    assert Trim(" php") == Trim("php") == "php";
  }

  /** A product other than row `except` already carries `name` (`unique:products,nama_produk,except`). */
  predicate NameTaken(products: map<int, Product>, name: string, except: Option<int>)
  {
    exists id :: id in products && Some(id) != except && products[id].name == name
  }

  /**
   * The fields the validator rejects. `except` is the row being updated
   * (`None` on `store`); the rules are otherwise the same for both actions.
   */
  function ProductErrors(req: ProductRequest, products: map<int, Product>, categories: set<int>, except: Option<int>): (r: set<Field>)
    ensures r <= {NameField, ImageField, CategoryField, StockField, PriceField}
    ensures req.image.None? ==> ImageField !in r
    ensures r == {} ==> req.name.Some? && req.categoryId.Some? && req.stock.Some? && req.price.Some?
  {
    (if req.name.None? || |req.name.value| > MaxNameLength || NameTaken(products, req.name.value, except)
     then {NameField} else {})
    + (if req.image.Some? && !ImageAccepted(req.image.value) then {ImageField} else {})
    + (if req.categoryId.None? || req.categoryId.value !in categories then {CategoryField} else {})
    + (if req.stock.None? || req.stock.value < 0 then {StockField} else {})
    + (if req.price.None? || req.price.value < 0 then {PriceField} else {})
  }

  /**
   * A request is rejected when its name belongs to another product, its
   * category does not exist, or its stock or price is negative; an accepted
   * request carries every required field with a non-negative stock and price.
   */
  lemma ProductValidation(req: ProductRequest, products: map<int, Product>, categories: set<int>, except: Option<int>)
    ensures req.name.Some? && NameTaken(products, req.name.value, except) ==> NameField in ProductErrors(req, products, categories, except)
    ensures req.categoryId.Some? && req.categoryId.value !in categories ==> CategoryField in ProductErrors(req, products, categories, except)
    ensures req.stock.Some? && req.stock.value < 0 ==> StockField in ProductErrors(req, products, categories, except)
    ensures req.price.Some? && req.price.value < 0 ==> PriceField in ProductErrors(req, products, categories, except)
    ensures ProductErrors(req, products, categories, except) == {} ==>
      && req.name.Some? && !NameTaken(products, req.name.value, except)
      && req.categoryId.Some? && req.categoryId.value in categories
      && req.stock.Some? && req.stock.value >= 0
      && req.price.Some? && req.price.value >= 0
  {
  }

  /**
   * Uniqueness excludes the row being updated: a product keeps its own name on
   * `update`, while `store` with that name is rejected.
   */
  lemma OwnNameAllowedOnUpdate(products: map<int, Product>, id: int)
    requires id in products
    requires forall other :: other in products && other != id ==> products[other].name != products[id].name
    ensures !NameTaken(products, products[id].name, Some(id))
    ensures NameTaken(products, products[id].name, None)
  {
  }

  /** The number a string of decimal digits spells, most significant digit first. */
  function DigitsValue(s: string): int
  {
    if s == [] then 0 else DigitsValue(s[..|s| - 1]) * 10 + (s[|s| - 1] as int - '0' as int)
  }

  /** Decimal digits of `n`, as `time()` is printed into a file name. */
  function Decimal(n: nat): (s: string)
    ensures |s| >= 1
    ensures forall i :: 0 <= i < |s| ==> '0' <= s[i] <= '9'
    ensures DigitsValue(s) == n
    ensures n > 0 ==> s[0] != '0'
  {
    var digit := ['0' + (n % 10) as char];
    if n < 10 then digit
    else
      var high := Decimal(n / 10);
      assert (high + digit)[..|high|] == high;
      high + digit
  }

  /** `str_replace(' ', '_', name)`. */
  function Underscored(name: string): (r: string)
    ensures |r| == |name|
    ensures forall i :: 0 <= i < |r| ==> r[i] == (if name[i] == ' ' then '_' else name[i])
    ensures ' ' !in r
  {
    if name == [] then []
    else [if name[0] == ' ' then '_' else name[0]] + Underscored(name[1..])
  }

  /** Where an uploaded image is stored: `products/<time>_<name>.<client extension>`. */
  function ImagePath(now: nat, name: string, extension: string): string
  {
    "products/" + Decimal(now) + "_" + Underscored(name) + "." + extension
  }

  /**
   * A stored path lies in the `products` directory, ends with `.` and the
   * client's extension, and is as long as its parts, with each blank of the
   * name replaced rather than dropped.
   */
  lemma ImagePathShape(now: nat, name: string, extension: string)
    ensures var r := ImagePath(now, name, extension);
      && |r| == |"products/"| + |Decimal(now)| + 1 + |name| + 1 + |extension|
      && "products/" <= r
      && r[|r| - |extension| - 1..] == "." + extension
  {
    var r := ImagePath(now, name, extension);
    var front := "products/" + Decimal(now) + "_" + Underscored(name);
    assert r == front + ("." + extension);
  }

  /** Different times print differently. */
  lemma DecimalInjective(m: nat, n: nat)
    ensures Decimal(m) == Decimal(n) ==> m == n
  {
  }

  /** Position `|p| + i` of `p + x + tail` is `x[i]`, and position `|p| + |x|` starts `tail`. */
  lemma ConcatAt(p: string, x: string, tail: string, i: nat)
    requires i <= |x| && tail != []
    ensures (p + x + tail)[|p| + i] == if i < |x| then x[i] else tail[0]
  {
  }

  /**
   * Uploads of the same product name and extension at different times get
   * different stored paths: the digits of the time end at the first `_`.
   */
  lemma ImagePathDistinct(m: nat, n: nat, name: string, extension: string)
    requires m != n
    ensures ImagePath(m, name, extension) != ImagePath(n, name, extension)
  {
    var dm, dn := Decimal(m), Decimal(n);
    var p, tail := "products/", "_" + Underscored(name) + "." + extension;
    assert ImagePath(m, name, extension) == p + dm + tail;
    assert ImagePath(n, name, extension) == p + dn + tail;
    DecimalInjective(m, n);
    if |dm| < |dn| {
      ConcatAt(p, dm, tail, |dm|);
      ConcatAt(p, dn, tail, |dm|);
    } else if |dn| < |dm| {
      ConcatAt(p, dm, tail, |dn|);
      ConcatAt(p, dn, tail, |dn|);
    } else {
      var i :| 0 <= i < |dm| && dm[i] != dn[i];
      ConcatAt(p, dm, tail, i);
      ConcatAt(p, dn, tail, i);
    }
  }

  /** `where('nama_produk', 'like', '%' . search . '%')`, read as plain substring search. */
  predicate Contains(haystack: string, needle: string)
  {
    exists k :: 0 <= k <= |haystack| && needle <= haystack[k..]
  }

  /** PHP truthiness of a request string: empty and "0" are false. */
  predicate Truthy(s: Option<string>)
  {
    s.Some? && s.value != "" && s.value != "0"
  }

  /** The filters of `ProductController::index`; a `category_id` of 0 is falsy and ignored. */
  predicate Listed(p: Product, categoryId: Option<int>, search: Option<string>)
  {
    && (categoryId.Some? && categoryId.value != 0 ==> p.categoryId == categoryId.value)
    && (Truthy(search) ==> Contains(p.name, search.value))
  }

  /** Everything `index` would list over all its pages, in ascending id order. */
  function Catalog(products: map<int, Product>, categoryId: Option<int>, search: Option<string>): (r: seq<int>)
    ensures forall id :: id in r <==> id in products && Listed(products[id], categoryId, search)
    ensures forall i, j :: 0 <= i < j < |r| ==> r[i] < r[j]
  {
    var ids := Ids(products.Keys);
    var r := Filter(ids, (id: int) => id in products && Listed(products[id], categoryId, search));
    FilterKeepsOrder(ids, (id: int) => id in products && Listed(products[id], categoryId, search));
    r
  }

  /** Filtering a strictly ascending id listing keeps it strictly ascending. */
  lemma {:induction false} FilterKeepsOrder(s: seq<int>, p: int -> bool)
    requires forall i, j :: 0 <= i < j < |s| ==> s[i] < s[j]
    ensures forall i, j :: 0 <= i < j < |Filter(s, p)| ==> Filter(s, p)[i] < Filter(s, p)[j]
  {
    if s != [] {
      var s' := s[..|s| - 1];
      FilterKeepsOrder(s', p);
      var r' := Filter(s', p);
      forall x | x in r'
        ensures x < s[|s| - 1]
      {
        var k :| 0 <= k < |s'| && s'[k] == x;
      }
    }
  }

  /** `ProductController::index`: page `page` of the filtered catalog. */
  function Index(products: map<int, Product>, categoryId: Option<int>, search: Option<string>, page: Option<int>): (r: seq<int>)
    ensures var all, lo := Catalog(products, categoryId, search), (CurrentPage(page) - 1) * PerPage;
      && |r| == (if |all| <= lo then 0 else if |all| - lo < PerPage then |all| - lo else PerPage)
      && forall i :: 0 <= i < |r| ==> lo + i < |all| && r[i] == all[lo + i]
    ensures forall id :: id in r ==> id in products && Listed(products[id], categoryId, search)
  {
    PageMembers(Catalog(products, categoryId, search), page);
    Page(Catalog(products, categoryId, search), page)
  }

  /** Every product passing the filters is on some page of `index`. */
  lemma IndexComplete(products: map<int, Product>, categoryId: Option<int>, search: Option<string>, id: int)
    requires id in products && Listed(products[id], categoryId, search)
    ensures exists p :: p >= 1 && id in Index(products, categoryId, search, Some(p))
  {
    var all := Catalog(products, categoryId, search);
    OnSomePage(all, id);
    var p :| p >= 1 && id in Page(all, Some(p));
    assert Index(products, categoryId, search, Some(p)) == Page(all, Some(p));
  }

  /** The stock of row `id`, as a sort key. */
  function StockKey(products: map<int, Product>): int -> int
  {
    (id: int) => if id in products then products[id].stock else 0
  }

  /** The threshold `lowStock` uses: the request's, or 10. */
  function Threshold(threshold: Option<int>): int
  {
    if threshold.Some? then threshold.value else DefaultLowStockThreshold
  }

  /** The ids of the products at or below the threshold, in ascending id order. */
  function LowIds(products: map<int, Product>, threshold: Option<int>): (r: seq<int>)
    ensures forall id :: id in r <==> id in products && products[id].stock <= Threshold(threshold)
    ensures Distinct(r)
  {
    var ids := Ids(products.Keys);
    var p := (id: int) => id in products && products[id].stock <= Threshold(threshold);
    FilterKeepsOrder(ids, p);
    Filter(ids, p)
  }

  /** Everything `lowStock` would list over all its pages, lowest stock first. */
  function LowStockAll(products: map<int, Product>, threshold: Option<int>): (r: seq<int>)
    ensures forall id :: id in r <==> id in products && products[id].stock <= Threshold(threshold)
    ensures Ascending(r, StockKey(products))
    ensures Distinct(r)
  {
    var low := LowIds(products, threshold);
    var r := SortBy(low, StockKey(products));
    PermutationMembers(low, r);
    PermutationDistinct(low, r);
    r
  }

  /** Ascending in the stock key is ascending in stock for listings of existing rows. */
  lemma StockAscending(products: map<int, Product>, r: seq<int>)
    requires Ascending(r, StockKey(products))
    requires forall i :: 0 <= i < |r| ==> r[i] in products
    ensures forall i, j :: 0 <= i < j < |r| ==> products[r[i]].stock <= products[r[j]].stock
  {
    forall i, j | 0 <= i < j < |r|
      ensures products[r[i]].stock <= products[r[j]].stock
    {
      assert StockKey(products)(r[i]) <= StockKey(products)(r[j]);
    }
  }

  /** `ProductController::lowStock`: page `page` of the low-stock listing, lowest stock first. */
  function LowStock(products: map<int, Product>, threshold: Option<int>, page: Option<int>): (r: seq<int>)
    ensures var all, lo := LowStockAll(products, threshold), (CurrentPage(page) - 1) * PerPage;
      && |r| == (if |all| <= lo then 0 else if |all| - lo < PerPage then |all| - lo else PerPage)
      && forall i :: 0 <= i < |r| ==> lo + i < |all| && r[i] == all[lo + i]
    ensures forall i :: 0 <= i < |r| ==> r[i] in products && products[r[i]].stock <= Threshold(threshold)
    ensures forall i, j :: 0 <= i < j < |r| ==> products[r[i]].stock <= products[r[j]].stock
  {
    var r := Page(LowStockAll(products, threshold), page);
    LowStockPage(products, threshold, page, r);
    r
  }

  /** A page of the low-stock listing holds low rows, lowest stock first. */
  lemma LowStockPage(products: map<int, Product>, threshold: Option<int>, page: Option<int>, r: seq<int>)
    requires r == Page(LowStockAll(products, threshold), page)
    ensures forall i :: 0 <= i < |r| ==> r[i] in products && products[r[i]].stock <= Threshold(threshold)
    ensures forall i, j :: 0 <= i < j < |r| ==> products[r[i]].stock <= products[r[j]].stock
  {
    var all := LowStockAll(products, threshold);
    PageAscending(all, StockKey(products), page);
    forall i | 0 <= i < |r|
      ensures r[i] in products && products[r[i]].stock <= Threshold(threshold)
    {
      assert r[i] in all;
    }
    StockAscending(products, r);
  }

  /** Every product at or below the threshold is on some page of `lowStock`. */
  lemma LowStockComplete(products: map<int, Product>, threshold: Option<int>, id: int)
    requires id in products && products[id].stock <= Threshold(threshold)
    ensures exists p :: p >= 1 && id in LowStock(products, threshold, Some(p))
  {
    var all := LowStockAll(products, threshold);
    OnSomePage(all, id);
    var p :| p >= 1 && id in Page(all, Some(p));
    assert LowStock(products, threshold, Some(p)) == Page(all, Some(p));
  }
}
