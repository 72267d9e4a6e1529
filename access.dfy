/**
 * Access policy: the role middleware's decision, the role each `v1` route
 * group demands, and the dashboard route with its own role check and counts.
 */
module Access {
  import opened Wrappers
  import opened Entities
  import opened Seqs
  import ProductRules
  import TransactionQueries

  /** What the role middleware does with a request. */
  datatype Decision = Unauthorized | Forbidden | Pass

  /**
   * `RoleMiddleware::handle`: `caller` is the authenticated user's role, if any;
   * `roles` the role names listed on the route. Only `Pass` calls the next handler.
   */
  function Handle(caller: Option<Role>, roles: seq<string>): (d: Decision)
    // authentication is checked before role: 401 exactly when unauthenticated, so never 403 then
    ensures d == Unauthorized <==> caller.None?
    ensures d == Forbidden <==> caller.Some? && RoleName(caller.value) !in roles
    ensures d == Pass <==> caller.Some? && RoleName(caller.value) in roles
  {
    if caller.None? then Unauthorized
    else if RoleName(caller.value) !in roles then Forbidden
    else Pass
  }

  /** Listing more roles never turns a pass into a rejection. */
  lemma MoreRolesStillPass(caller: Option<Role>, roles: seq<string>, more: seq<string>)
    requires forall r :: r in roles ==> r in more
    ensures Handle(caller, roles) == Pass ==> Handle(caller, more) == Pass
  {
  }

  /** The `v1` route groups behind the role middleware. */
  datatype Group = AdminDirectory | Categories | Products | Transactions

  /** `role:super_admin` on the admins group, `role:admin,super_admin` on the others. */
  function GroupRoles(g: Group): (roles: seq<string>)
    ensures "super_admin" in roles
    ensures "admin" in roles <==> g != AdminDirectory
    ensures forall n :: n in roles ==> ParseRole(n).Some? && IsStaff(ParseRole(n).value)
  {
    match g
    case AdminDirectory => ["super_admin"]
    case Categories => ["admin", "super_admin"]
    case Products => ["admin", "super_admin"]
    case Transactions => ["admin", "super_admin"]
  }

  /** The role middleware's decision for a caller reaching group `g`. */
  function Authorize(caller: Option<Role>, g: Group): Decision
  {
    Handle(caller, GroupRoles(g))
  }

  /** What a `v1` request meets before its controller: refused with a status, or let through. */
  datatype Outcome = Refused(status: int) | Reached

  /**
   * `auth:api` and then the group's role middleware. `auth:api` refuses an
   * unauthenticated caller by throwing, and the application's catch-all
   * renderer answers that exception with 500, as it carries no status code;
   * the middleware's own 401 is therefore never reached on these routes.
   */
  function Gate(caller: Option<Role>, g: Group): (o: Outcome)
    ensures o == Refused(500) <==> caller.None?
    ensures o == Refused(403) <==> caller.Some? && RoleName(caller.value) !in GroupRoles(g)
    ensures o == Reached <==> Authorize(caller, g) == Pass
    ensures caller.Some? ==> Authorize(caller, g) != Unauthorized
  {
    if caller.None? then Refused(500)
    else if Authorize(caller, g) == Pass then Reached
    else Refused(403)
  }

  /** Only super admins reach the admin directory; categories, products and transactions admit exactly the staff roles. */
  lemma RoleMatrix(r: Role, g: Group)
    ensures g == AdminDirectory ==> (Authorize(Some(r), g) == Pass <==> r == SuperAdmin)
    ensures g != AdminDirectory ==> (Authorize(Some(r), g) == Pass <==> IsStaff(r))
    ensures r == Regular ==> Authorize(Some(r), g) == Forbidden
  {
  }

  datatype Verb = Get | Post | Put | Delete

  /** The controller actions the `v1` groups route to. */
  datatype Action = Index | Store | Show | Update | Destroy | Dropdown | LowStock | Stats | ProductHistory

  /** The routes of group `g`: each a verb and the action it calls. */
  function Routes(g: Group): (r: seq<(Verb, Action)>)
    ensures (Get, Index) in r && (Post, Store) in r && (Get, Show) in r
    ensures (Put, Update) in r <==> g != Transactions
    ensures (Delete, Destroy) in r <==> g != Transactions
    ensures forall i, j :: 0 <= i < j < |r| ==> r[i] != r[j]
  {
    match g
    case AdminDirectory =>
      [(Get, Index), (Post, Store), (Get, Show), (Put, Update), (Delete, Destroy)]
    case Categories =>
      [(Get, Index), (Post, Store), (Get, Dropdown), (Get, Show), (Put, Update), (Delete, Destroy)]
    case Products =>
      [(Get, Index), (Post, Store), (Get, LowStock), (Get, Show), (Put, Update), (Delete, Destroy)]
    case Transactions =>
      [(Get, Index), (Post, Store), (Get, Stats), (Get, ProductHistory), (Get, Show)]
  }

  /** The transaction group exposes no update or delete: only reads and `store`. */
  lemma TransactionsAppendOnly()
    ensures forall i :: 0 <= i < |Routes(Transactions)| ==>
      Routes(Transactions)[i].0 == Get || Routes(Transactions)[i] == (Post, Store)
    ensures forall i :: 0 <= i < |Routes(Transactions)| ==>
      Routes(Transactions)[i].1 != Update && Routes(Transactions)[i].1 != Destroy
  {
  }

  /**
   * The dashboard route's own check on the caller `auth:api` let through:
   * 403 unless `isAdmin() || isSuperAdmin()`.
   */
  function DashboardAccess(caller: Role): (d: Decision)
    ensures d != Unauthorized
    ensures d == Pass <==> caller == Admin || caller == SuperAdmin
  {
    if !IsStaff(caller) then Forbidden else Pass
  }

  /** The dashboard admits exactly the callers the product group admits. */
  lemma DashboardMatchesStaffGroups(caller: Role)
    ensures DashboardAccess(caller) == Authorize(Some(caller), Products)
  {
  }

  /** The dashboard figures. `today` is the current day number. */
  datatype Dashboard = Dashboard(
    totalProducts: nat,
    totalCategories: nat,
    lowStockProducts: nat,
    transactionsToday: nat,
    recent: seq<Txn>)

  /**
   * `where('stok_produk', '<=', 10)->count()`; the figure is the length of
   * `lowStock`'s default listing.
   */
  function LowStockCount(products: map<int, Product>): (c: nat)
    ensures c == |ProductRules.LowStockAll(products, None)|
  {
    var low := set id | id in products && products[id].stock <= 10;
    assert ProductRules.Threshold(None) == 10;
    DistinctListingCard(ProductRules.LowStockAll(products, None), low);
    |low|
  }

  /** The day-`today` test of `whereDate('created_at', today())`. */
  function OnDay(today: int): Txn -> bool
  {
    (t: Txn) => TransactionQueries.Day(t.createdAt) == today
  }

  /** Every stored transaction passes `index` without filters, so its listing has them all, once each. */
  lemma UnfilteredListing(ledger: seq<Txn>)
    ensures multiset(TransactionQueries.Listing(ledger, TransactionQueries.ListFilter(None, None, None, None))) == multiset(ledger)
    ensures |TransactionQueries.Listing(ledger, TransactionQueries.ListFilter(None, None, None, None))| == |ledger|
  {
    var f := TransactionQueries.ListFilter(None, None, None, None);
    var all := TransactionQueries.Listing(ledger, f);
    assert forall t :: t in ledger ==> TransactionQueries.Matcher(f)(t);
    FilterAll(ledger, TransactionQueries.Matcher(f));
    assert |all| == |multiset(all)| == |multiset(ledger)| == |ledger|;
  }

  /** In a newest-first listing, a row left out of the first `n` is no newer than any of them. */
  lemma NoNewerOutside(all: seq<Txn>, n: nat, t: Txn)
    requires Ascending(all, TransactionQueries.NewestFirstKey) && t in all && t !in Take(all, n)
    ensures forall i :: 0 <= i < |Take(all, n)| ==> Take(all, n)[i].createdAt >= t.createdAt
  {
    OutsideTake(all, TransactionQueries.NewestFirstKey, n, t);
    forall i | 0 <= i < |Take(all, n)|
      ensures Take(all, n)[i].createdAt >= t.createdAt
    {
      assert TransactionQueries.NewestFirstKey(Take(all, n)[i]) <= TransactionQueries.NewestFirstKey(t);
    }
  }

  /** The newest-first listing of every stored transaction. */
  function Newest(ledger: seq<Txn>): seq<Txn>
  {
    TransactionQueries.Listing(ledger, TransactionQueries.ListFilter(None, None, None, None))
  }

  /** The first `n` of the newest-first listing are stored rows, each taken at most as often as stored. */
  lemma NewestRows(ledger: seq<Txn>, n: nat)
    ensures |Take(Newest(ledger), n)| == if |ledger| <= n then |ledger| else n
    ensures multiset(Take(Newest(ledger), n)) <= multiset(ledger)
    ensures forall t :: t in Take(Newest(ledger), n) ==> t in ledger
  {
    UnfilteredListing(ledger);
    TakeMultiset(Newest(ledger), n);
  }

  /** The first `n` of the newest-first listing are newest first, and nothing left out is newer. */
  lemma NewestOrder(ledger: seq<Txn>, n: nat)
    ensures var r := Take(Newest(ledger), n);
      forall i, j :: 0 <= i < j < |r| ==> r[i].createdAt >= r[j].createdAt
    ensures var r := Take(Newest(ledger), n);
      forall t :: t in ledger && t !in r ==> forall i :: 0 <= i < |r| ==> r[i].createdAt >= t.createdAt
  {
    var all := Newest(ledger);
    var r := Take(all, n);
    UnfilteredListing(ledger);
    assert forall i :: 0 <= i < |r| ==> r[i] == all[i];
    TransactionQueries.NewestFirstDescending(all);
    forall t | t in ledger && t !in r
      ensures forall i :: 0 <= i < |r| ==> r[i].createdAt >= t.createdAt
    {
      assert t in multiset(ledger);
      NoNewerOutside(all, n, t);
    }
  }

  /**
   * `recent_transactions`: the five newest stored transactions (all of them
   * when there are fewer), newest first; any stored transaction left out is
   * no newer than each listed one.
   */
  function Recent(ledger: seq<Txn>): (r: seq<Txn>)
    ensures |r| == if |ledger| <= 5 then |ledger| else 5
    ensures multiset(r) <= multiset(ledger)
    ensures forall t :: t in r ==> t in ledger
    ensures forall i, j :: 0 <= i < j < |r| ==> r[i].createdAt >= r[j].createdAt
    ensures forall t :: t in ledger && t !in r ==>
      forall i :: 0 <= i < |r| ==> r[i].createdAt >= t.createdAt
  {
    NewestRows(ledger, 5);
    NewestOrder(ledger, 5);
    Take(Newest(ledger), 5)
  }

  /** The number of stored transactions made on day `today`. */
  lemma TodayCount(ledger: seq<Txn>, today: int)
    ensures |Filter(ledger, OnDay(today))|
      == |set i | 0 <= i < |ledger| && TransactionQueries.Day(ledger[i].createdAt) == today|
  {
    FilterIndices(ledger, OnDay(today));
    var byTest := Positions(ledger, OnDay(today));
    var byDay := set i | 0 <= i < |ledger| && TransactionQueries.Day(ledger[i].createdAt) == today;
    forall i
      ensures i in byTest <==> i in byDay
    {
      if 0 <= i < |ledger| {
        assert OnDay(today)(ledger[i]) == (TransactionQueries.Day(ledger[i].createdAt) == today);
      }
    }
    assert byTest == byDay;
  }

  /** The dashboard figures over the current tables; `recent` is the five newest transactions. */
  function DashboardData(products: map<int, Product>, categories: set<int>, ledger: seq<Txn>, today: int): (d: Dashboard)
    ensures d.totalProducts == |products| && d.totalCategories == |categories|
    ensures d.lowStockProducts == |ProductRules.LowStockAll(products, None)|
    ensures d.transactionsToday == |set i | 0 <= i < |ledger| && TransactionQueries.Day(ledger[i].createdAt) == today|
    ensures d.recent == Recent(ledger)
  {
    TodayCount(ledger, today);
    Dashboard(|products|, |categories|, LowStockCount(products), |Filter(ledger, OnDay(today))|, Recent(ledger))
  }
}
