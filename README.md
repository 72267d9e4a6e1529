# Stock management backend — a Dafny model

This project models the business core of a small inventory backend. The backend is a Laravel REST API over a relational database with four tables (categories, products, transactions and users) and an image disk. The model covers these parts:

- **Stock ledger.** `POST transactions` validates the request and refuses a `stock_out` larger than the current stock. The transaction row is then inserted, and the Transaction model's `created` hook calls `Product::updateStock`, which moves `stok_produk` up or down by the quantity. `Store.Database.RecordTransaction` performs that request as one atomic step. The class invariant `Store.Database.Valid` states five things:
  - no stock is ever negative;
  - every product's category exists;
  - every product id and user id is below the counter that hands out the next one;
  - every stored transaction references an existing product and an existing user, and its id is below the next transaction id;
  - every product's stock equals its stock at the last direct write, plus the stock_in quantities recorded for it since, minus the stock_out quantities (`Store.StockSinceLastWrite`).

  Every state-changing method keeps `Valid`. Two ghost fields support the ledger identity. `history` holds every transaction ever created. For each product, `baseline` and `mark` record the stock written at the last direct write and how many transactions existed at that moment.
- **Catalog.** Covers product validation for `store` and `update`, the stored image path (`products/<time>_<name>.<ext>`), and the `index` listing with its category and name-search filters. It also covers `lowStock`, listed lowest stock first with a default threshold of 10, and `destroy`, which deletes the image file; the `product_id` foreign key cascades and removes the product's transactions.
- **Admin directory.** Covers `AdminController` `index`, `show`, `store`, `update` and `destroy`, all scoped to staff roles. `destroy` refuses to remove the only super admin. `update` has no such guard.
- **Authentication rules.** Covers the validation and effects of `register` and `updateProfile`. Password hashing and hash checking are function parameters (`hash`, `verify`).
- **Access.** Covers `auth:api` and the role middleware in front of each `v1` route group, the roles each group demands, the dashboard's own staff check, and the dashboard figures.
- **Transaction queries.** Covers the filtered, newest-first, paginated `index` and `productHistory`, and the `stats` figures over a time window. Those figures are the counts and quantity sums per type and the five most active products.

Prices are integer cents (`harga_produk` is `decimal:2`), and timestamps are integer seconds. A date filter compares `timestamp / 86400`, which is the calendar day. Listings that have no `ORDER BY` come in ascending id order. Ties in a sorted listing keep that order, because the sort is a stable insertion sort.

Points where the code's behaviour is easy to misread:

- **Direct stock writes.** Stock does not change through the ledger alone. `ProductController::update` (api/app/Http/Controllers/ProductController.php:149-155) writes `stok_produk` straight from the request. So the ledger identity counts transactions only since a product's last direct write (`store` or `update`), not since its creation.
- **Transactions can be deleted.** No route updates or deletes a transaction (`Access.TransactionsAppendOnly`), but both foreign keys cascade (api/database/migrations/2025_10_01_140948_create_transactions_table.php:16, 20):
  - deleting a product removes its transactions, which is harmless because the product is gone;
  - deleting an admin removes that admin's transactions and leaves every stock as it was.

  The invariant is therefore stated over `history`, not over the stored rows.
- **Status codes.** An unauthenticated request to a `v1` route answers 500, not 401: `auth:api` throws before the role middleware's own 401 check, and the catch-all renderer gives that exception 500 (`Access.Gate`). A duplicate product name or an unknown category is a 422 validation error. Deleting the last super admin answers 400. A missing row in `update` or `destroy` is caught by the catch-all and answers 500; `AdminController::show` answers 404.
- **Super-admin count.** `destroy` keeps at least one super admin (`Store.Database.DeleteAdmin`). `AdminController::update` can demote the only super admin (`UserRules.DemotionUnguarded`). The public `register` route accepts any role, `super_admin` included (`UserRules.SelfRegistrationOfAnyRole`).

## Model

| member | source | states |
|---|---|---|
| Store.Database.UpdateStock | api/app/Models/Product.php:44-51 | stock_in adds the quantity to that one product's stock, stock_out subtracts it with no check of its own, and any other type leaves every product unchanged |
| Store.Database.CreateTransaction | api/app/Models/Transaction.php:39-46 | creating a row appends it to the stored and historical ledger, advances the id counter and moves its product's stock by the signed quantity, preserving the database invariant |
| Store.Database.RecordTransaction | api/app/Http/Controllers/TransactionController.php:59-114 | succeeds exactly when the request is valid and is not a stock_out exceeding the stock (so a stock_out of the whole stock succeeds and leaves 0); rejected with the failing fields, or with the available stock for a too-large stock_out, changing nothing; otherwise exactly one transaction with the request's fields, the actor and the clock is appended, only its product's stock moves by its signed quantity, and stock stays non-negative and reconciled |
| Store.StockSinceLastWrite | api/app/Http/Controllers/ProductController.php:149-155 | in a reconciled database every product's stock is its stock at the last direct write plus the stock_in quantities minus the stock_out quantities recorded for it since |
| Store.AppendReconciles | api/app/Models/Transaction.php:43-45 | appending a transaction and moving its product's stock by its signed quantity keeps every product reconciled with the ledger |
| Store.RecordKeeps | api/app/Http/Controllers/TransactionController.php:89-95 | a transaction for an existing product and user, with the next id and a non-negative resulting stock, keeps the whole database invariant |
| Store.ProductWriteKeeps | api/app/Http/Controllers/ProductController.php:170 | a direct product write with non-negative stock and an existing category, resetting that product's baseline, keeps the database invariant |
| Store.ProductRemoveKeeps | api/database/migrations/2025_10_01_140948_create_transactions_table.php:16 | removing a product together with its stored transactions keeps the database invariant |
| Store.UserWriteKeeps | api/app/Http/Controllers/AdminController.php:159 | writing a user row under an id below the next user id keeps the database invariant |
| Store.UserRemoveKeeps | api/database/migrations/2025_10_01_140948_create_transactions_table.php:20 | removing a user together with the transactions it recorded keeps the database invariant, stocks untouched |
| Store.WithoutProduct | api/database/migrations/2025_10_01_140948_create_transactions_table.php:16 | the surviving rows are exactly the stored transactions of other products |
| Store.WithoutUser | api/database/migrations/2025_10_01_140948_create_transactions_table.php:20 | the surviving rows are exactly the stored transactions recorded by other users |
| Store.Discard | api/app/Http/Controllers/ProductController.php:196-198 | the old image path is gone from the disk afterwards and every other path is kept; a missing path is ignored |
| Store.Database.WriteProduct | api/app/Http/Controllers/ProductController.php:85 | the product row is replaced, its baseline becomes the written stock, and the product id counter advances only when a new id is used; the invariant is kept |
| Store.Database.RemoveProduct | api/app/Http/Controllers/ProductController.php:200 | the product row, its baseline and its stored transactions go; the invariant is kept |
| Store.Database.CreateProduct | api/app/Http/Controllers/ProductController.php:49-100 | fails exactly when validation fails, changing nothing; otherwise a product under a fresh id holds the request's fields, the stored image path if one was uploaded, and the requested stock as its new baseline; the id counter advances by one |
| Store.Database.UpdateProduct | api/app/Http/Controllers/ProductController.php:127-185 | validation errors first, then 500 for a missing id, changing nothing; otherwise every field including the stock is rewritten from the request, an upload replaces the image file, and the stock becomes the product's new baseline |
| Store.Database.DeleteProduct | api/app/Http/Controllers/ProductController.php:190-213 | 500 exactly when the product is missing and success exactly when it exists; then the product, its image file, its transactions and its ghost baseline and mark are removed, and nothing else changes |
| Store.Database.CreateAdmin | api/app/Http/Controllers/AdminController.php:39-84 | fails exactly when validation fails; otherwise a new staff user under a fresh id with an email no user had, the hashed password and the requested role; the id counter advances by one |
| Store.Database.UpdateAdmin | api/app/Http/Controllers/AdminController.php:121-173 | validation errors, then 500 for a missing or non-staff row; otherwise the fields and role are rewritten and the password hash only when a new password is given; no super-admin guard |
| Store.Database.DeleteAdmin | api/app/Http/Controllers/AdminController.php:178-207 | 500 for a missing or non-staff row, 400 for the only super admin, success exactly when the guard allows; the user's transactions go with it, no stock changes, and a super admin always remains when there was one |
| Store.Database.Register | api/app/Http/Controllers/AuthController.php:20-55 | fails exactly when validation fails; otherwise a new user under a fresh id with the hashed password and the requested role, `user` when none is given; the id counter advances by one |
| Store.Database.UpdateProfile | api/app/Http/Controllers/AuthController.php:135-207 | validation errors, then a filled new password without a filled current one or with a wrong one is refused, changing nothing; otherwise the profile fields are rewritten, the hash only for a filled new password (a blank one is ignored), and the role never |
| Store.Database.Seeded | api/database/seeders/StockManagementSeeder.php:18-133 | the seeded database satisfies the invariant, has exactly users 1 and 2 with user 1 the only super admin, five categories, the eight seeded products and no transactions |
| Store.SeedConsistent | api/database/seeders/StockManagementSeeder.php:72-133 | the seed data satisfies the database invariant |
| Store.SeedStaff | api/database/seeders/StockManagementSeeder.php:19-41 | the seeded super admin is the only one |
| Store.DeleteKeepsSuperAdminWhenPresent | api/app/Http/Controllers/AdminController.php:184-194 | a deletion the guard allows leaves a super admin whenever there was one |
| Ledger.NetIsInMinusOut | api/app/Models/Product.php:44-51 | the net stock change made by a run of transactions is the sum of that product's stock_in quantities minus the sum of its stock_out quantities |
| Ledger.InThenOutRestores | api/app/Models/Product.php:44-51 | a stock_in of q followed by a stock_out of q on the same product restores its stock |
| Ledger.CountsPartition | api/app/Http/Controllers/TransactionController.php:147-161 | the stock_in count plus the stock_out count is the number of transactions |
| Ledger.KindsByFilter | api/app/Http/Controllers/TransactionController.php:147-161 | the per-type count and quantity sum are the number and the total quantity of the transactions of that type |
| Ledger.OfProductAppend | api/app/Http/Controllers/TransactionController.php:27-29 | a newly appended transaction joins a product's own history exactly when it is for that product |
| Entities.ParseType | api/database/migrations/2025_10_01_140948_create_transactions_table.php:17 | a string names a transaction type exactly when it is stock_in or stock_out |
| Entities.TypeNameRoundTrip | api/database/migrations/2025_10_01_140948_create_transactions_table.php:17 | parsing a type's name gives the type back, and a parsed string is that type's name |
| Entities.ParseRole | api/app/Http/Controllers/AuthController.php:26 | a string names a role exactly when it is super_admin, admin or user |
| Entities.RoleNameRoundTrip | api/app/Http/Controllers/AuthController.php:26 | parsing a role's name gives the role back, and a parsed string is that role's name |
| Entities.Status | api/app/Http/Controllers/AuthController.php:150-176 | every failure answers a 4xx or 5xx status, and 422 exactly for validation failures and the two current-password refusals |
| TransactionQueries.TypeFilter | api/app/Http/Controllers/TransactionController.php:22-24 | the type filter applies exactly when the parameter is stock_in or stock_out |
| TransactionQueries.NewestFirst | api/app/Http/Controllers/TransactionController.php:40 | the listing is a permutation of the rows, ordered newest first |
| TransactionQueries.NewestFirstDescending | api/app/Http/Controllers/TransactionController.php:40 | a newest-first listing has non-increasing creation times |
| TransactionQueries.Listing | api/app/Http/Controllers/TransactionController.php:16-54 | across all pages the listing holds exactly the stored transactions that pass the type, product and date filters, newest first |
| TransactionQueries.Index | api/app/Http/Controllers/TransactionController.php:16-54 | page p is exactly the p-th run of ten rows of the full filtered listing (its length is what remains, at most ten), so its rows are matching stored transactions in non-increasing creation time |
| TransactionQueries.IndexComplete | api/app/Http/Controllers/TransactionController.php:16-54 | every stored transaction passing the filters is on some page |
| TransactionQueries.UnknownTypeIgnored | api/app/Http/Controllers/TransactionController.php:22-24 | a type parameter that names neither type gives the same page as no type parameter |
| TransactionQueries.ProductHistoryAll | api/app/Http/Controllers/TransactionController.php:195-219 | across all pages exactly the stored transactions of that product, of the requested type when one is named, each as often as stored, newest first |
| TransactionQueries.ProductHistory | api/app/Http/Controllers/TransactionController.php:195-219 | page p is exactly the p-th run of ten rows of the full history (its length is what remains, at most ten), so of that product and type, newest first |
| TransactionQueries.ProductHistoryComplete | api/app/Http/Controllers/TransactionController.php:195-219 | every stored transaction of the product, of the requested type, is on some page |
| TransactionQueries.InWindow | api/app/Http/Controllers/TransactionController.php:147-161 | the window holds exactly the stored transactions created between start and end, both included |
| TransactionQueries.Counts | api/app/Http/Controllers/TransactionController.php:164-170 | one entry per product with transactions in the window, each carrying its true count |
| TransactionQueries.Busiest | api/app/Http/Controllers/TransactionController.php:164-170 | the per-product counts without repetition, busiest first, with every active product present |
| TransactionQueries.TopOrdered | api/app/Http/Controllers/TransactionController.php:164-170 | the top entries are ordered by count, name each product once and carry its true count |
| TransactionQueries.MostActive | api/app/Http/Controllers/TransactionController.php:164-170 | at most five products, each with its true positive count, busiest first and without repetition |
| TransactionQueries.MostActiveComplete | api/app/Http/Controllers/TransactionController.php:164-170 | an active product left out of the most-active list means five are listed, each at least as busy as it |
| TransactionQueries.ComputeStats | api/app/Http/Controllers/TransactionController.php:141-190 | the total is the number of transactions in the window and equals stock_in count plus stock_out count; each per-type count is the number of that type's transactions in the window and each sum their total quantity; the most-active list is that of the window, at most five entries |
| ProductRules.ProductValidation | api/app/Http/Controllers/ProductController.php:51-66 | a name taken by another product, an unknown category, a negative stock or a negative price is rejected; an accepted request has every required field with non-negative stock and price |
| ProductRules.OwnNameAllowedOnUpdate | api/app/Http/Controllers/ProductController.php:130 | a product keeps its own unique name on update, while store with that name is rejected |
| ProductRules.Decimal | api/app/Http/Controllers/ProductController.php:80 | the printed time is a non-empty run of decimal digits, without a leading zero, that spells the time's value |
| ProductRules.DecimalInjective | api/app/Http/Controllers/ProductController.php:80 | different times print differently |
| ProductRules.ImagePathDistinct | api/app/Http/Controllers/ProductController.php:80-82 | uploads of the same name and extension at different seconds get different stored paths |
| ProductRules.Underscored | api/app/Http/Controllers/ProductController.php:80 | every space of the name becomes an underscore and nothing else changes |
| ProductRules.Catalog | api/app/Http/Controllers/ProductController.php:15-44 | across all pages exactly the products passing the category and name filters, in strictly ascending id order |
| ProductRules.FilterKeepsOrder | api/app/Http/Controllers/ProductController.php:21-28 | filtering an ascending id listing keeps it ascending |
| ProductRules.Index | api/app/Http/Controllers/ProductController.php:15-44 | page p is exactly the p-th run of ten ids of the filtered catalog (its length is what remains, at most ten), so each listed product passes the filters |
| ProductRules.IndexComplete | api/app/Http/Controllers/ProductController.php:15-44 | every product passing the filters is on some page |
| ProductRules.LowIds | api/app/Http/Controllers/ProductController.php:221-224 | exactly the products at or below the threshold, each once |
| ProductRules.LowStockAll | api/app/Http/Controllers/ProductController.php:218-240 | exactly the products at or below the threshold (10 by default), each once, lowest stock first |
| ProductRules.LowStock | api/app/Http/Controllers/ProductController.php:218-240 | page p is exactly the p-th run of ten ids of the full low-stock listing (its length is what remains, at most ten), each product at or below the threshold, in non-decreasing stock |
| ProductRules.LowStockComplete | api/app/Http/Controllers/ProductController.php:218-240 | every product at or below the threshold is on some page |
| ProductRules.ProductErrors | api/app/Http/Controllers/ProductController.php:51-58 | only the request's own fields are reported, never the image when none was uploaded, and an accepted request carries name, category, stock and price |
| ProductRules.DisguisedScriptRefused | api/app/Http/Controllers/ProductController.php:54 | an upload whose contents look like a PNG is still refused when its client extension is ` PHP`, and accepted when it is `png` |
| ProductRules.ImagePathShape | api/app/Http/Controllers/ProductController.php:80-81 | the stored path lies under `products/`, ends with `.` and the client's extension, and is exactly as long as its parts |
| Store.TxnErrors | api/app/Http/Controllers/TransactionController.php:61-74 | only product_id, type and quantity are reported, and none is exactly when the product exists, the type is stock_in or stock_out and the quantity is at least 1 |
| UserRules.StaffRole | api/app/Http/Controllers/AdminController.php:49 | the admin directory assigns a role exactly for admin and super_admin, and it is a staff role |
| UserRules.AdminValidation | api/app/Http/Controllers/AdminController.php:41-50 | store demands a staff role, a password that is not blank and an email no user has; update demands an email no other user has, so an admin keeps its own |
| UserRules.FindStaff | api/app/Http/Controllers/AdminController.php:143 | a row is found exactly when it exists with a staff role |
| UserRules.ShowAdmin | api/app/Http/Controllers/AdminController.php:89-116 | the staff row, or 404 exactly when the id is missing or a plain user |
| UserRules.Staff | api/app/Http/Controllers/AdminController.php:15-34 | the directory lists exactly the users whose role is not user |
| UserRules.AdminErrors | api/app/Http/Controllers/AdminController.php:123-132 | a missing password is an error exactly on store, not on update, and a blank one is an error on store; an accepted request has a staff role and an email no other user has |
| UserRules.MayDelete | api/app/Http/Controllers/AdminController.php:181-192 | the guard never lets a plain user row be deleted through the admin directory |
| UserRules.RegisterErrors | api/app/Http/Controllers/AuthController.php:22-27 | only name, email, password and role are reported, a missing role is never an error, and an accepted request has a confirmed, non-blank password of at least six characters |
| UserRules.ProfileErrors | api/app/Http/Controllers/AuthController.php:139-148 | only the profile's own fields are reported, a missing new password is never an error, and an accepted request has an email no other user has |
| UserRules.LastSuperAdminGuard | api/app/Http/Controllers/AdminController.php:184-192 | the only super admin cannot be deleted, and an admin target always can |
| UserRules.DeleteKeepsSuperAdmin | api/app/Http/Controllers/AdminController.php:184-194 | a deletion the guard allows leaves at least one super admin |
| UserRules.DemotionUnguarded | api/app/Http/Controllers/AdminController.php:145-159 | update can demote the only super admin, leaving none |
| UserRules.RegisteredRole | api/app/Http/Controllers/AuthController.php:42 | no role gives user; a valid requested role is the registered one |
| UserRules.BlankPassword | api/app/Http/Controllers/AuthController.php:160-190 | a password of six blanks is refused by register, but passes updateProfile's validation and then counts as no new password |
| PhpText.FilledIffNonBlank | api/app/Http/Controllers/AuthController.php:160 | a value is filled exactly when it holds a character other than the trimmed blanks |
| UserRules.SelfRegistrationOfAnyRole | api/app/Http/Controllers/AuthController.php:22-42 | a well-formed request with a fresh email registers a super admin when it asks for one |
| UserRules.ProfileEmailUniqueness | api/app/Http/Controllers/AuthController.php:143 | a user may keep its own email but not take another user's |
| Access.Handle | api/app/Http/Middleware/RoleMiddleware.php:16-41 | 401 exactly when unauthenticated, 403 exactly when authenticated without a listed role, pass otherwise |
| Access.GroupRoles | api/routes/api.php:60-95 | every listed name is a staff role, super_admin is always listed, and admin everywhere but the admin directory |
| Access.Routes | api/routes/api.php:60-95 | every group has index, store and show, no route twice, and update and delete everywhere except transactions |
| Access.Gate | api/bootstrap/app.php:44-55 | behind `auth:api` an unauthenticated caller is answered 500, a caller without a listed role 403, and the controller is reached exactly when the role middleware passes |
| Access.MoreRolesStillPass | api/app/Http/Middleware/RoleMiddleware.php:31 | listing more roles never turns a pass into a rejection |
| Access.RoleMatrix | api/routes/api.php:60-95 | only super admins reach the admin directory; categories, products and transactions admit exactly admins and super admins; plain users are refused everywhere |
| Access.TransactionsAppendOnly | api/routes/api.php:89-95 | the transaction routes are reads and store only, with no update or delete |
| Access.DashboardAccess | api/routes/api.php:98-106 | the route's own check never answers 401 and passes exactly admins and super admins |
| Access.DashboardMatchesStaffGroups | api/routes/api.php:98-106 | the dashboard admits exactly the callers the product routes admit |
| Access.LowStockCount | api/routes/api.php:111 | the dashboard's low-stock count is the length of the default low-stock listing |
| Access.UnfilteredListing | api/app/Http/Controllers/TransactionController.php:16-54 | with no filters the transaction listing holds every stored transaction exactly as often as stored |
| Access.NewestRows | api/routes/api.php:113-116 | the first n rows of the newest-first listing number min(n, stored), each stored row taken at most as often as stored |
| Access.NewestOrder | api/routes/api.php:113-116 | the first n rows of the newest-first listing are newest first, and no stored row left out is newer than a taken one |
| Access.Recent | api/routes/api.php:113-116 | the five newest stored transactions, or all when fewer are stored: no row repeated beyond its stored count, newest first, and no stored transaction left out is newer than a listed one |
| Access.TodayCount | api/routes/api.php:112 | the number of stored transactions made on the day is the number of ledger positions whose row falls on that day |
| Access.DashboardData | api/routes/api.php:108-117 | the product and category totals are the table sizes, the low-stock figure agrees with the low-stock listing, the day's figure counts the stored transactions of that day, and the recent list is `Recent` |

## Left out

- Login, logout, token refresh and `me` (JWT issuance and checking): the model receives the caller's identity and role as parameters.
- Password hashing and checking: these are the function parameters `hash` and `verify`.
- Image storage: the disk is a set of paths. An upload carries the type guessed from its contents, which `mimes` checks, and the client's file-name extension. That extension is checked only against the framework's PHP-extension refusal (trimmed and ASCII lower-cased, as `mimes` does) and otherwise goes unchecked into the stored name. The type guessing itself, file contents, `ImageController` and a failing disk are not modelled.
- Framework answers other than 500 for an unauthenticated `v1` request: the model follows the catch-all renderer in api/bootstrap/app.php:44-55 and does not model the framework's exception handler beyond it.
- Database transactions and row locking: each controller action is one atomic method, so concurrent requests are not modelled.
- Category management (`CategoryController`): categories are a fixed set of ids, with no create, update or delete.
- The `show` actions of products and transactions, pagination metadata, and the eager-loaded relations in responses.
- Email format, date parsing and `numeric` prices: the model takes already-typed values (strings, day numbers, integer cents).
- The request middleware that trims strings and turns empty ones into null: text fields arrive already trimmed, with a blank field as `None`. The password fields, which that middleware leaves untrimmed, keep their blanks, and `required` and `filled` test them with `PhpText.Filled`.
- ProductRules.NameTaken: compares names with exact string equality; the database collation, which usually makes `unique:products` case-insensitive, is not modelled.
- UserRules.EmailTaken: compares emails with exact string equality; the database collation, which usually makes `unique:users` case-insensitive, is not modelled.
- ProductRules.Contains: `LIKE '%search%'` is plain case-sensitive substring search; collation case folding and the `%` and `_` wildcards inside the search text are not modelled.
- TransactionQueries.ComputeStats: the default window (the current month) is not computed; the caller passes start and end.
- TransactionQueries.ComputeStats: does not relate the quantity sums to the stock.
- The order of rows that SQL leaves unspecified (ties in `ORDER BY`, `GROUP BY` order) is fixed to ledger or id order by a stable sort.
- `updateProfile` has no route in api/routes/api.php; it is modelled as controller logic only.
- Store.Database.UpdateStock: takes the type as a string, as the hook passes it; integer overflow of `stok_produk` is not modelled.
- The 500 answers of the catch-all blocks for unexpected exceptions other than a missing row.
- The frontend application.
