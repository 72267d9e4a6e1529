/**
 * The inventory database as one state machine: the tables the controllers
 * write (categories, products, users, transactions) plus the public image
 * disk, and every state-changing controller action as one atomic method.
 *
 * Ghost bookkeeping proves the stock ledger: `history` holds every
 * transaction ever created (cascading deletes remove rows from `ledger`, never
 * from `history`), and for each product `baseline`/`mark` record its stock
 * right after the last direct write (product `store` or `update`) and how many
 * transactions existed then.
 */
module Store {
  import opened Wrappers
  import opened Entities
  import opened Seqs
  import opened Ledger
  import opened ProductRules
  import opened UserRules

  /** The fields of a `POST transactions` request; `None` is an absent or non-integer field. */
  datatype TxnRequest = TxnRequest(
    productId: Option<int>,
    kind: Option<string>,
    quantity: Option<int>,
    notes: Option<string>)

  /** The fields the transaction validator rejects (`exists:products,id`, `in:stock_in,stock_out`, `integer|min:1`). */
  function TxnErrors(req: TxnRequest, products: map<int, Product>): (r: set<Field>)
    ensures r <= {ProductIdField, TypeField, QuantityField}
    ensures r == {} <==>
      && req.productId.Some? && req.productId.value in products
      && req.kind.Some? && (req.kind.value == "stock_in" || req.kind.value == "stock_out")
      && req.quantity.Some? && req.quantity.value >= 1
  {
    (if req.productId.None? || req.productId.value !in products then {ProductIdField} else {})
    + (if req.kind.None? || ParseType(req.kind.value).None? then {TypeField} else {})
    + (if req.quantity.None? || req.quantity.value < 1 then {QuantityField} else {})
  }

  /** The product row a validated `store`/`update` request describes. */
  function ProductFrom(req: ProductRequest, image: Option<string>): Product
    requires req.name.Some? && req.categoryId.Some? && req.stock.Some? && req.price.Some?
  {
    Product(req.name.value, req.description, image, req.categoryId.value, req.stock.value, req.price.value)
  }

  /**
   * The stock of every product is its value at the last direct write plus
   * the net of the transactions created for it since.
   */
  ghost predicate Reconciled(products: map<int, Product>, baseline: map<int, int>, mark: map<int, nat>,
                             history: seq<Txn>)
  {
    && products.Keys == baseline.Keys == mark.Keys
    && forall id :: id in products ==>
         mark[id] <= |history| && products[id].stock == baseline[id] + Net(history[mark[id]..], id)
  }

  /** No stock is negative and every product's category exists. */
  ghost predicate Stocked(products: map<int, Product>, categories: set<int>)
  {
    forall id :: id in products ==> products[id].stock >= 0 && products[id].categoryId in categories
  }

  /** Every id in use is below the next one to be handed out. */
  ghost predicate Below(ids: set<int>, next: int)
  {
    forall id :: id in ids ==> id < next
  }

  /** Every stored transaction references an existing product and user, and its id was handed out. */
  ghost predicate Referenced(ledger: seq<Txn>, products: map<int, Product>, users: map<int, User>, nextTxnId: int)
  {
    forall t :: t in ledger ==> t.productId in products && t.userId in users && t.id < nextTxnId
  }

  /** The whole database invariant over the tables' values and the ghost bookkeeping. */
  ghost predicate Consistent(categories: set<int>, products: map<int, Product>, users: map<int, User>,
                             ledger: seq<Txn>, nextProductId: int, nextUserId: int, nextTxnId: int,
                             history: seq<Txn>, baseline: map<int, int>, mark: map<int, nat>)
  {
    && Reconciled(products, baseline, mark, history)
    && Stocked(products, categories)
    && Below(products.Keys, nextProductId)
    && Below(users.Keys, nextUserId)
    && Referenced(ledger, products, users, nextTxnId)
  }

  /**
   * The disk after deleting a product's old image file, if it has one; a path
   * that is not on the disk is left alone.
   */
  function Discard(storage: set<string>, image: Option<string>): (r: set<string>)
    ensures image.Some? ==> image.value !in r
    ensures forall path :: path in r <==> path in storage && image != Some(path)
  {
    if image.Some? then storage - {image.value} else storage
  }

  /** The stored transactions that survive deleting product `id` (the `product_id` foreign key cascades). */
  function WithoutProduct(ledger: seq<Txn>, id: int): (r: seq<Txn>)
    ensures forall t :: t in r <==> t in ledger && t.productId != id
  {
    Filter(ledger, (t: Txn) => t.productId != id)
  }

  /** The stored transactions that survive deleting user `id` (the `user_id` foreign key cascades). */
  function WithoutUser(ledger: seq<Txn>, id: int): (r: seq<Txn>)
    ensures forall t :: t in r <==> t in ledger && t.userId != id
  {
    Filter(ledger, (t: Txn) => t.userId != id)
  }

  /**
   * Creating a transaction keeps the ledger reconciled exactly when its
   * product's stock moves by the transaction's signed quantity.
   */
  lemma AppendReconciles(products: map<int, Product>, baseline: map<int, int>, mark: map<int, nat>,
                         history: seq<Txn>, t: Txn)
    requires Reconciled(products, baseline, mark, history) && t.productId in products
    ensures Reconciled(products[t.productId := products[t.productId].(stock := products[t.productId].stock + Signed(t, t.productId))],
                       baseline, mark, history + [t])
  {
    var moved := products[t.productId := products[t.productId].(stock := products[t.productId].stock + Signed(t, t.productId))];
    forall id | id in moved
      ensures mark[id] <= |history + [t]| && moved[id].stock == baseline[id] + Net((history + [t])[mark[id]..], id)
    {
      assert (history + [t])[mark[id]..] == history[mark[id]..] + [t];
      NetAppend(history[mark[id]..], t, id);
    }
  }

  /** A direct write of a product's row restarts its reconciliation at the current history. */
  lemma WriteReconciles(products: map<int, Product>, baseline: map<int, int>, mark: map<int, nat>,
                        history: seq<Txn>, id: int, p: Product)
    requires Reconciled(products, baseline, mark, history)
    ensures Reconciled(products[id := p], baseline[id := p.stock], mark[id := |history|], history)
  {
    assert history[|history|..] == [];
  }

  /**
   * The ledger identity on the database's books: a product's stock is what
   * was last written directly, plus the stock_in quantities recorded for it
   * since, minus the stock_out quantities recorded for it since.
   */
  lemma StockSinceLastWrite(products: map<int, Product>, baseline: map<int, int>, mark: map<int, nat>,
                            history: seq<Txn>, id: int)
    requires Reconciled(products, baseline, mark, history) && id in products
    ensures mark[id] <= |history|
    ensures var since := OfProduct(history[mark[id]..], id);
      products[id].stock == baseline[id] + SumKind(since, StockIn) - SumKind(since, StockOut)
  {
    NetIsInMinusOut(history[mark[id]..], id);
  }

  /**
   * Recording a transaction for an existing product by an existing user keeps
   * the invariant, provided the resulting stock is not negative.
   */
  lemma RecordKeeps(categories: set<int>, products: map<int, Product>, users: map<int, User>,
                    ledger: seq<Txn>, nextProductId: int, nextUserId: int, nextTxnId: int,
                    history: seq<Txn>, baseline: map<int, int>, mark: map<int, nat>, t: Txn)
    requires Consistent(categories, products, users, ledger, nextProductId, nextUserId, nextTxnId, history, baseline, mark)
    requires t.productId in products && t.userId in users && t.id == nextTxnId
    requires products[t.productId].stock + Signed(t, t.productId) >= 0
    ensures Consistent(categories,
                       products[t.productId := products[t.productId].(stock := products[t.productId].stock + Signed(t, t.productId))],
                       users, ledger + [t], nextProductId, nextUserId, nextTxnId + 1, history + [t], baseline, mark)
  {
    AppendReconciles(products, baseline, mark, history, t);
  }

  /**
   * Writing product `id` directly (create or update) keeps the invariant when
   * the row's stock is not negative and its category exists.
   */
  lemma ProductWriteKeeps(categories: set<int>, products: map<int, Product>, users: map<int, User>,
                          ledger: seq<Txn>, nextProductId: int, nextUserId: int, nextTxnId: int,
                          history: seq<Txn>, baseline: map<int, int>, mark: map<int, nat>,
                          id: int, p: Product, next: int)
    requires Consistent(categories, products, users, ledger, nextProductId, nextUserId, nextTxnId, history, baseline, mark)
    requires p.stock >= 0 && p.categoryId in categories && id < next && nextProductId <= next
    ensures Consistent(categories, products[id := p], users, ledger, next, nextUserId, nextTxnId,
                       history, baseline[id := p.stock], mark[id := |history|])
  {
    WriteReconciles(products, baseline, mark, history, id, p);
  }

  /** Deleting product `id` together with its transactions keeps the invariant. */
  lemma ProductRemoveKeeps(categories: set<int>, products: map<int, Product>, users: map<int, User>,
                           ledger: seq<Txn>, nextProductId: int, nextUserId: int, nextTxnId: int,
                           history: seq<Txn>, baseline: map<int, int>, mark: map<int, nat>, id: int)
    requires Consistent(categories, products, users, ledger, nextProductId, nextUserId, nextTxnId, history, baseline, mark)
    ensures Consistent(categories, products - {id}, users, WithoutProduct(ledger, id), nextProductId, nextUserId,
                       nextTxnId, history, baseline - {id}, mark - {id})
  {
  }

  /** Writing user `id` keeps the invariant. */
  lemma UserWriteKeeps(categories: set<int>, products: map<int, Product>, users: map<int, User>,
                       ledger: seq<Txn>, nextProductId: int, nextUserId: int, nextTxnId: int,
                       history: seq<Txn>, baseline: map<int, int>, mark: map<int, nat>,
                       id: int, u: User, next: int)
    requires Consistent(categories, products, users, ledger, nextProductId, nextUserId, nextTxnId, history, baseline, mark)
    requires id < next && nextUserId <= next
    ensures Consistent(categories, products, users[id := u], ledger, nextProductId, next, nextTxnId,
                       history, baseline, mark)
  {
  }

  /** Deleting user `id` together with their transactions keeps the invariant. */
  lemma UserRemoveKeeps(categories: set<int>, products: map<int, Product>, users: map<int, User>,
                        ledger: seq<Txn>, nextProductId: int, nextUserId: int, nextTxnId: int,
                        history: seq<Txn>, baseline: map<int, int>, mark: map<int, nat>, id: int)
    requires Consistent(categories, products, users, ledger, nextProductId, nextUserId, nextTxnId, history, baseline, mark)
    ensures Consistent(categories, products, users - {id}, WithoutUser(ledger, id), nextProductId, nextUserId,
                       nextTxnId, history, baseline, mark)
  {
  }

  /** The seeded products: eight rows in five categories. */
  function SeedProducts(): map<int, Product>
  {
    map[
      1 := Product("Smartphone Samsung Galaxy A54", Some("Smartphone Android dengan kamera 50MP"), None, 1, 25, 599900000),
      2 := Product("Laptop ASUS VivoBook", Some("Laptop dengan processor Intel Core i5"), None, 1, 10, 850000000),
      3 := Product("Kaos Polo Lacoste", Some("Kaos polo original dari Lacoste"), None, 2, 50, 89900000),
      4 := Product("Celana Jeans Levi's", Some("Celana jeans premium dari Levi's"), None, 2, 30, 125000000),
      5 := Product("Kopi Arabica Premium", Some("Kopi arabica single origin premium"), None, 3, 100, 12500000),
      6 := Product("Blender Philips HR2115", Some("Blender dengan kapasitas 2 liter"), None, 4, 15, 65000000),
      7 := Product("Sepatu Lari Nike Air Zoom", Some("Sepatu lari dengan teknologi Air Zoom"), None, 5, 8, 180000000),
      8 := Product("Dumbell Set 20kg", Some("Set dumbell adjustable hingga 20kg"), None, 5, 5, 75000000)]
  }

  /** The seeded staff: one super admin and one admin, both with the seed password. */
  function SeedUsers(hash: string -> string): map<int, User>
  {
    map[
      1 := User("Super Administrator", Some("Super"), Some("Administrator"), "superadmin@stock.com",
                Some(7305), Some("L"), hash("password123"), SuperAdmin),
      2 := User("Administrator", Some("Admin"), Some("User"), "admin@stock.com",
                Some(8170), Some("P"), hash("password123"), Admin)]
  }

  /** Every seeded stock is its own baseline, with no transactions yet. */
  function SeedBaseline(): (b: map<int, int>)
    ensures b.Keys == SeedProducts().Keys
    ensures forall id :: id in b ==> b[id] == SeedProducts()[id].stock
  {
    map id | id in SeedProducts() :: SeedProducts()[id].stock
  }

  /** No seeded product has been moved by a transaction yet. */
  function SeedMark(): (m: map<int, nat>)
    ensures m.Keys == SeedProducts().Keys
    ensures forall id :: id in m ==> m[id] == 0
  {
    map id | id in SeedProducts() :: 0
  }

  /** The seeded stocks are not negative, their categories are seeded, and their ids are below 9. */
  lemma SeedStocked()
    ensures Stocked(SeedProducts(), {1, 2, 3, 4, 5}) && Below(SeedProducts().Keys, 9)
  {
  }

  /** With no transactions yet, every seeded stock is its own baseline. */
  lemma SeedReconciled()
    ensures Reconciled(SeedProducts(), SeedBaseline(), SeedMark(), [])
  {
  }

  /** The seeded database satisfies the invariant. */
  lemma SeedConsistent(hash: string -> string)
    ensures Consistent({1, 2, 3, 4, 5}, SeedProducts(), SeedUsers(hash), [], 9, 3, 1, [], SeedBaseline(), SeedMark())
  {
    SeedStocked();
    SeedReconciled();
  }

  /** The seeder creates exactly one super admin, user 1. */
  lemma SeedStaff(hash: string -> string)
    ensures SuperAdmins(SeedUsers(hash)) == {1}
  {
    var u := SeedUsers(hash);
    assert 1 in SuperAdmins(u) && 2 !in SuperAdmins(u);
  }

  class Database {
    var categories: set<int>
    var products: map<int, Product>
    var users: map<int, User>
    var ledger: seq<Txn>
    /** Paths present on the public disk. */
    var storage: set<string>
    var nextProductId: int
    var nextUserId: int
    var nextTxnId: int

    ghost var history: seq<Txn>
    ghost var baseline: map<int, int>
    ghost var mark: map<int, nat>

    /**
     * The database invariant: stocks are never negative; every product's
     * category exists; product and user ids are below their counters; every
     * stored transaction references an existing product and an existing user
     * and has an id below the transaction counter; and the stock ledger
     * reconciles.
     */
    ghost predicate Valid()
      reads this`categories, this`products, this`users, this`ledger, this`nextProductId, this`nextUserId,
            this`nextTxnId, this`history, this`baseline, this`mark
    {
      Consistent(categories, products, users, ledger, nextProductId, nextUserId, nextTxnId, history, baseline, mark)
    }

    /**
     * The seeded database: one super admin, one admin, five categories and
     * eight products, no transactions.
     */
    constructor Seeded(hash: string -> string)
      ensures Valid()
      ensures SuperAdmins(users) == {1} && users.Keys == {1, 2}
      ensures products == SeedProducts() && categories == {1, 2, 3, 4, 5}
      ensures ledger == [] && history == []
    {
      categories := {1, 2, 3, 4, 5};
      users := SeedUsers(hash);
      products := SeedProducts();
      ledger := [];
      storage := {};
      nextProductId, nextUserId, nextTxnId := 9, 3, 1;
      history := [];
      baseline := SeedBaseline();
      mark := SeedMark();
      new;
      SeedConsistent(hash);
      SeedStaff(hash);
    }

    /**
     * `Product::updateStock`: `stock_in` adds the quantity, `stock_out`
     * subtracts it without any check of its own, any other type does nothing.
     * Only the stock of that one product changes.
     */
    method UpdateStock(id: int, quantity: int, kind: string)
      requires id in products
      modifies this`products
      ensures kind == "stock_in" ==>
        products == old(products)[id := old(products)[id].(stock := old(products)[id].stock + quantity)]
      ensures kind == "stock_out" ==>
        products == old(products)[id := old(products)[id].(stock := old(products)[id].stock - quantity)]
      ensures kind != "stock_in" && kind != "stock_out" ==> products == old(products)
    {
      if kind == "stock_in" {
        products := products[id := products[id].(stock := products[id].stock + quantity)];
      } else if kind == "stock_out" {
        products := products[id := products[id].(stock := products[id].stock - quantity)];
      }
    }

    /**
     * `Transaction::create` followed by the model's `created` hook: the row is
     * stored with the next id and its product's stock moves by its quantity.
     */
    method CreateTransaction(t: Txn)
      requires Valid() && t.productId in products && t.userId in users && t.id == nextTxnId
      requires products[t.productId].stock + Signed(t, t.productId) >= 0
      modifies this`products, this`ledger, this`history, this`nextTxnId
      ensures Valid()
      ensures ledger == old(ledger) + [t] && history == old(history) + [t] && nextTxnId == old(nextTxnId) + 1
      ensures products == old(products)[t.productId := old(products)[t.productId].(
                stock := old(products)[t.productId].stock + Signed(t, t.productId))]
    {
      RecordKeeps(categories, products, users, ledger, nextProductId, nextUserId, nextTxnId, history, baseline, mark, t);
      var moved := products[t.productId := products[t.productId].(stock := products[t.productId].stock + Signed(t, t.productId))];
      nextTxnId := nextTxnId + 1;
      ledger := ledger + [t];
      history := history + [t];
      assert "stock_in" != "stock_out" by {
        assert "stock_in"[6] != "stock_out"[6];
      }
      UpdateStock(t.productId, t.quantity, TypeName(t.kind));
      assert products == moved;
    }

    /**
     * `TransactionController::store`, including the `created` hook, as one
     * atomic step. A request the validator rejects, or a `stock_out` larger
     * than the current stock, changes nothing; otherwise exactly one
     * transaction is appended and its product's stock moves by its quantity.
     */
    method RecordTransaction(req: TxnRequest, actor: int, now: int) returns (r: Result<Txn, ApiError>)
      requires Valid() && actor in users
      modifies this
      ensures Valid()
      ensures r.Err? ==> unchanged(this)
      ensures TxnErrors(req, old(products)) != {} <==> r.Err? && r.error.Invalid?
      ensures TxnErrors(req, old(products)) != {} ==> r == Err(Invalid(TxnErrors(req, old(products))))
      ensures TxnErrors(req, old(products)) == {} ==>
        var id, q := req.productId.value, req.quantity.value;
        ((ParseType(req.kind.value) == Some(StockOut) && old(products)[id].stock < q)
           <==> r == Err(InsufficientStock(old(products)[id].stock)))
      ensures r.Ok? <==>
        && TxnErrors(req, old(products)) == {}
        && !(ParseType(req.kind.value) == Some(StockOut) && old(products)[req.productId.value].stock < req.quantity.value)
      ensures r.Ok? ==>
        && TxnErrors(req, old(products)) == {}
        && r.value == Txn(old(nextTxnId), req.productId.value, ParseType(req.kind.value).value,
                          req.quantity.value, req.notes, actor, now)
        && ledger == old(ledger) + [r.value]
        && history == old(history) + [r.value]
        && products == old(products)[r.value.productId := old(products)[r.value.productId].(
             stock := old(products)[r.value.productId].stock + Signed(r.value, r.value.productId))]
        && unchanged(this`categories, this`users, this`storage, this`nextProductId, this`nextUserId,
                     this`baseline, this`mark)
    {
      var errs := TxnErrors(req, products);
      if errs != {} {
        return Err(Invalid(errs));
      }
      var id, kind, q := req.productId.value, ParseType(req.kind.value).value, req.quantity.value;
      if kind == StockOut && products[id].stock < q {
        return Err(InsufficientStock(products[id].stock));
      }
      var t := Txn(nextTxnId, id, kind, q, req.notes, actor, now);
      CreateTransaction(t);
      r := Ok(t);
    }

    /**
     * A direct write of product row `id` (`Product::create` or
     * `$product->update`): the row, stock included, is replaced, and its
     * reconciliation restarts from the written stock.
     */
    method WriteProduct(id: int, p: Product)
      requires Valid() && p.stock >= 0 && p.categoryId in categories
      requires id in products || id == nextProductId
      modifies this`products, this`baseline, this`mark, this`nextProductId
      ensures Valid()
      ensures products == old(products)[id := p]
      ensures baseline == old(baseline)[id := p.stock] && mark == old(mark)[id := |history|]
      ensures nextProductId == if id == old(nextProductId) then old(nextProductId) + 1 else old(nextProductId)
    {
      var next := if id == nextProductId then nextProductId + 1 else nextProductId;
      ProductWriteKeeps(categories, products, users, ledger, nextProductId, nextUserId, nextTxnId,
                        history, baseline, mark, id, p, next);
      products := products[id := p];
      baseline := baseline[id := p.stock];
      mark := mark[id := |history|];
      nextProductId := next;
    }

    /** `$product->delete()`: the row goes, and the `product_id` foreign key removes its transactions. */
    method RemoveProduct(id: int)
      requires Valid()
      modifies this`products, this`baseline, this`mark, this`ledger
      ensures Valid()
      ensures products == old(products) - {id} && ledger == WithoutProduct(old(ledger), id)
      ensures baseline == old(baseline) - {id} && mark == old(mark) - {id}
    {
      ProductRemoveKeeps(categories, products, users, ledger, nextProductId, nextUserId, nextTxnId,
                         history, baseline, mark, id);
      products := products - {id};
      baseline := baseline - {id};
      mark := mark - {id};
      ledger := WithoutProduct(ledger, id);
    }

    /**
     * `ProductController::store`: a validated request creates a product whose
     * stock is written directly from the request, storing the uploaded image
     * if there is one.
     */
    method CreateProduct(req: ProductRequest, now: nat) returns (r: Result<int, ApiError>)
      requires Valid()
      modifies this
      ensures Valid()
      ensures ProductErrors(req, old(products), old(categories), None) != {} <==> r.Err?
      ensures r.Err? ==> r == Err(Invalid(ProductErrors(req, old(products), old(categories), None))) && unchanged(this)
      ensures r.Ok? ==>
        var image := if req.image.Some? then Some(ImagePath(now, req.name.value, req.image.value.clientExtension)) else None;
        && r.value == old(nextProductId) && r.value !in old(products)
        && products == old(products)[r.value := ProductFrom(req, image)]
        && storage == old(storage) + (if image.Some? then {image.value} else {})
        && baseline == old(baseline)[r.value := req.stock.value]
        && mark == old(mark)[r.value := |history|]
        && nextProductId == old(nextProductId) + 1
        && unchanged(this`categories, this`users, this`ledger, this`history, this`nextUserId, this`nextTxnId)
    {
      var errs := ProductErrors(req, products, categories, None);
      ProductValidation(req, products, categories, None);
      if errs != {} {
        return Err(Invalid(errs));
      }
      var image: Option<string> := None;
      if req.image.Some? {
        var path := ImagePath(now, req.name.value, req.image.value.clientExtension);
        storage := storage + {path};
        image := Some(path);
      }
      var id := nextProductId;
      WriteProduct(id, ProductFrom(req, image));
      r := Ok(id);
    }

    /**
     * `ProductController::update`: a validated request for an existing product
     * rewrites all its fields, the stock included, from the request; that is a
     * direct stock write with no transaction. A new upload replaces the image,
     * deleting the old file if it is on the disk.
     */
    method UpdateProduct(id: int, req: ProductRequest, now: nat) returns (r: Result<(), ApiError>)
      requires Valid()
      modifies this
      ensures Valid()
      ensures r.Err? ==> unchanged(this)
      ensures ProductErrors(req, old(products), old(categories), Some(id)) != {} ==>
        r == Err(Invalid(ProductErrors(req, old(products), old(categories), Some(id))))
      ensures ProductErrors(req, old(products), old(categories), Some(id)) == {} && id !in old(products) ==>
        r == Err(ServerError)
      ensures r.Ok? <==> ProductErrors(req, old(products), old(categories), Some(id)) == {} && id in old(products)
      ensures r.Ok? ==>
        var oldImage := old(products)[id].image;
        var image := if req.image.Some? then Some(ImagePath(now, req.name.value, req.image.value.clientExtension)) else oldImage;
        && products == old(products)[id := ProductFrom(req, image)]
        && products[id].stock == req.stock.value
        && storage == (if req.image.Some? then Discard(old(storage), oldImage) + {image.value} else old(storage))
        && baseline == old(baseline)[id := req.stock.value]
        && mark == old(mark)[id := |history|]
        && unchanged(this`categories, this`users, this`ledger, this`history,
                     this`nextProductId, this`nextUserId, this`nextTxnId)
    {
      var errs := ProductErrors(req, products, categories, Some(id));
      ProductValidation(req, products, categories, Some(id));
      if errs != {} {
        return Err(Invalid(errs));
      }
      if id !in products {
        return Err(ServerError);
      }
      var image := products[id].image;
      if req.image.Some? {
        storage := Discard(storage, image);
        var path := ImagePath(now, req.name.value, req.image.value.clientExtension);
        storage := storage + {path};
        image := Some(path);
      }
      WriteProduct(id, ProductFrom(req, image));
      r := Ok(());
    }

    /**
     * `ProductController::destroy`: removes the product and its image file; the
     * foreign key removes its transactions. Stocks of other products are untouched.
     */
    method DeleteProduct(id: int) returns (r: Result<(), ApiError>)
      requires Valid()
      modifies this
      ensures Valid()
      ensures id !in old(products) <==> r == Err(ServerError)
      ensures r.Ok? <==> id in old(products)
      ensures r.Err? ==> unchanged(this)
      ensures r.Ok? ==>
        && products == old(products) - {id}
        && ledger == WithoutProduct(old(ledger), id)
        && storage == Discard(old(storage), old(products)[id].image)
        && baseline == old(baseline) - {id} && mark == old(mark) - {id}
        && unchanged(this`categories, this`users, this`history, this`nextProductId, this`nextUserId, this`nextTxnId)
    {
      if id !in products {
        return Err(ServerError);
      }
      var image := products[id].image;
      storage := Discard(storage, image);
      RemoveProduct(id);
      r := Ok(());
    }

    /** `AdminController::store`: a validated request adds a staff user with a fresh, unique email. */
    method CreateAdmin(req: AdminRequest, hash: string -> string) returns (r: Result<int, ApiError>)
      requires Valid()
      modifies this
      ensures Valid()
      ensures AdminErrors(req, old(users), None) != {} <==> r.Err?
      ensures r.Err? ==> r == Err(Invalid(AdminErrors(req, old(users), None))) && unchanged(this)
      ensures r.Ok? ==>
        && r.value == old(nextUserId) && r.value !in old(users)
        && (forall id :: id in old(users) ==> old(users)[id].email != req.email.value)
        && users == old(users)[r.value := User(req.name.value, req.firstName, req.lastName, req.email.value,
                                               req.birthDate, req.gender, hash(req.password.value),
                                               StaffRole(req.role).value)]
        && IsStaff(users[r.value].role)
        && nextUserId == old(nextUserId) + 1
        && unchanged(this`categories, this`products, this`ledger, this`storage, this`history,
                     this`baseline, this`mark, this`nextProductId, this`nextTxnId)
    {
      var errs := AdminErrors(req, users, None);
      AdminValidation(req, users, 0);
      if errs != {} {
        return Err(Invalid(errs));
      }
      var id := nextUserId;
      var u := User(req.name.value, req.firstName, req.lastName, req.email.value,
                    req.birthDate, req.gender, hash(req.password.value), StaffRole(req.role).value);
      UserWriteKeeps(categories, products, users, ledger, nextProductId, nextUserId, nextTxnId,
                     history, baseline, mark, id, u, nextUserId + 1);
      nextUserId := nextUserId + 1;
      users := users[id := u];
      r := Ok(id);
    }

    /**
     * `AdminController::update`: rewrites a staff user's fields and role, and
     * its password hash only when a new password is given. There is no
     * super-admin guard here. A `user` row is not found (a caught exception).
     */
    method UpdateAdmin(id: int, req: AdminRequest, hash: string -> string) returns (r: Result<(), ApiError>)
      requires Valid()
      modifies this
      ensures Valid()
      ensures r.Err? ==> unchanged(this)
      ensures AdminErrors(req, old(users), Some(id)) != {} ==> r == Err(Invalid(AdminErrors(req, old(users), Some(id))))
      ensures r.Ok? <==> AdminErrors(req, old(users), Some(id)) == {} && FindStaff(old(users), id).Some?
      ensures AdminErrors(req, old(users), Some(id)) == {} && FindStaff(old(users), id).None? ==> r == Err(ServerError)
      ensures r.Ok? ==>
        && users == old(users)[id := User(req.name.value, req.firstName, req.lastName, req.email.value,
                                          req.birthDate, req.gender,
                                          if req.password.Some? then hash(req.password.value)
                                          else old(users)[id].passwordHash,
                                          StaffRole(req.role).value)]
        && unchanged(this`categories, this`products, this`ledger, this`storage, this`history,
                     this`baseline, this`mark, this`nextProductId, this`nextUserId, this`nextTxnId)
    {
      var errs := AdminErrors(req, users, Some(id));
      AdminValidation(req, users, id);
      if errs != {} {
        return Err(Invalid(errs));
      }
      if FindStaff(users, id).None? {
        return Err(ServerError);
      }
      var passwordHash := if req.password.Some? then hash(req.password.value) else users[id].passwordHash;
      var u := User(req.name.value, req.firstName, req.lastName, req.email.value,
                    req.birthDate, req.gender, passwordHash, StaffRole(req.role).value);
      UserWriteKeeps(categories, products, users, ledger, nextProductId, nextUserId, nextTxnId,
                     history, baseline, mark, id, u, nextUserId);
      users := users[id := u];
      r := Ok(());
    }

    /**
     * `AdminController::destroy`: deletes a staff user unless it is the last
     * super admin; the foreign key removes that user's transactions, and no
     * stock is adjusted for them.
     */
    method DeleteAdmin(id: int) returns (r: Result<(), ApiError>)
      requires Valid()
      modifies this
      ensures Valid()
      ensures r.Err? ==> unchanged(this)
      ensures FindStaff(old(users), id).None? ==> r == Err(ServerError)
      ensures FindStaff(old(users), id).Some? && old(users)[id].role == SuperAdmin && |SuperAdmins(old(users))| <= 1 ==>
        r == Err(LastSuperAdmin)
      ensures r.Ok? <==> MayDelete(old(users), id)
      ensures |SuperAdmins(old(users))| >= 1 ==> |SuperAdmins(users)| >= 1
      ensures r.Ok? ==>
        && users == old(users) - {id}
        && ledger == WithoutUser(old(ledger), id)
        && products == old(products)
        && unchanged(this`categories, this`storage, this`history, this`baseline, this`mark,
                     this`nextProductId, this`nextUserId, this`nextTxnId)
    {
      if FindStaff(users, id).None? {
        return Err(ServerError);
      }
      if users[id].role == SuperAdmin && |SuperAdmins(users)| <= 1 {
        return Err(LastSuperAdmin);
      }
      DeleteKeepsSuperAdminWhenPresent(users, id);
      UserRemoveKeeps(categories, products, users, ledger, nextProductId, nextUserId, nextTxnId,
                      history, baseline, mark, id);
      users := users - {id};
      ledger := WithoutUser(ledger, id);
      r := Ok(());
    }

    /**
     * `AuthController::register`: a validated request adds a user whose role
     * is the requested one, or `user` when none is given.
     */
    method Register(req: RegisterRequest, hash: string -> string) returns (r: Result<int, ApiError>)
      requires Valid()
      modifies this
      ensures Valid()
      ensures RegisterErrors(req, old(users)) != {} <==> r.Err?
      ensures r.Err? ==> r == Err(Invalid(RegisterErrors(req, old(users)))) && unchanged(this)
      ensures r.Ok? ==>
        && r.value == old(nextUserId) && r.value !in old(users)
        && users == old(users)[r.value := User(req.name.value, None, None, req.email.value, None, None,
                                               hash(req.password.value), RegisteredRole(req.role))]
        && (req.role.None? ==> users[r.value].role == Regular)
        && nextUserId == old(nextUserId) + 1
        && unchanged(this`categories, this`products, this`ledger, this`storage, this`history,
                     this`baseline, this`mark, this`nextProductId, this`nextTxnId)
    {
      var errs := RegisterErrors(req, users);
      if errs != {} {
        return Err(Invalid(errs));
      }
      var id := nextUserId;
      var u := User(req.name.value, None, None, req.email.value, None, None,
                    hash(req.password.value), RegisteredRole(req.role));
      UserWriteKeeps(categories, products, users, ledger, nextProductId, nextUserId, nextTxnId,
                     history, baseline, mark, id, u, nextUserId + 1);
      nextUserId := nextUserId + 1;
      users := users[id := u];
      r := Ok(id);
    }

    /**
     * `AuthController::updateProfile` for the authenticated user `self`. A new
     * password needs the current one, which must match the stored hash
     * (`verify`); the profile fields are rewritten, the hash only when a new
     * password is given, and the role never.
     */
    method UpdateProfile(self: int, req: ProfileRequest, hash: string -> string, verify: (string, string) -> bool)
      returns (r: Result<(), ApiError>)
      requires Valid() && self in users
      modifies this
      ensures Valid()
      ensures r.Err? ==> unchanged(this)
      ensures ProfileErrors(req, old(users), self) != {} ==> r == Err(Invalid(ProfileErrors(req, old(users), self)))
      ensures ProfileErrors(req, old(users), self) == {} && ChangesPassword(req) && !CurrentPasswordGiven(req) ==>
        r == Err(CurrentPasswordRequired)
      ensures ProfileErrors(req, old(users), self) == {} && ChangesPassword(req) && CurrentPasswordGiven(req) &&
              !verify(req.currentPassword.value, old(users)[self].passwordHash) ==>
        r == Err(CurrentPasswordIncorrect)
      ensures r.Ok? <==>
        && ProfileErrors(req, old(users), self) == {}
        && (ChangesPassword(req) ==>
              CurrentPasswordGiven(req) && verify(req.currentPassword.value, old(users)[self].passwordHash))
      ensures r.Ok? ==>
        && users == old(users)[self := old(users)[self].(
             name := req.name.value, firstName := req.firstName, lastName := req.lastName,
             email := req.email.value, birthDate := req.birthDate, gender := req.gender,
             passwordHash := if ChangesPassword(req) then hash(req.password.value) else old(users)[self].passwordHash)]
        && users[self].role == old(users)[self].role
        && unchanged(this`categories, this`products, this`ledger, this`storage, this`history,
                     this`baseline, this`mark, this`nextProductId, this`nextUserId, this`nextTxnId)
    {
      var errs := ProfileErrors(req, users, self);
      if errs != {} {
        return Err(Invalid(errs));
      }
      if ChangesPassword(req) {
        if !CurrentPasswordGiven(req) {
          return Err(CurrentPasswordRequired);
        }
        if !verify(req.currentPassword.value, users[self].passwordHash) {
          return Err(CurrentPasswordIncorrect);
        }
      }
      var passwordHash := if ChangesPassword(req) then hash(req.password.value) else users[self].passwordHash;
      var u := users[self].(
        name := req.name.value, firstName := req.firstName, lastName := req.lastName,
        email := req.email.value, birthDate := req.birthDate, gender := req.gender,
        passwordHash := passwordHash);
      UserWriteKeeps(categories, products, users, ledger, nextProductId, nextUserId, nextTxnId,
                     history, baseline, mark, self, u, nextUserId);
      users := users[self := u];
      r := Ok(());
    }
  }

  /** The guard of `destroy` keeps a super admin whenever there was one. */
  lemma DeleteKeepsSuperAdminWhenPresent(users: map<int, User>, id: int)
    requires MayDelete(users, id)
    ensures |SuperAdmins(users)| >= 1 ==> |SuperAdmins(users - {id})| >= 1
  {
    if |SuperAdmins(users)| >= 1 {
      DeleteKeepsSuperAdmin(users, id);
    }
  }
}
