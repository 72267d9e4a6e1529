/**
 * The rows of the inventory database (products, transactions, users), the
 * two string enumerations the API accepts (transaction type and user role),
 * and the error kinds the controllers answer with.
 */
module Entities {
  import opened Wrappers

  /** `transactions.type`: an enum column with exactly two values. */
  datatype TxnType = StockIn | StockOut

  /** `users.role`. `Regular` is the role spelled `user`. */
  datatype Role = SuperAdmin | Admin | Regular

  function TypeName(k: TxnType): string
  {
    match k
    case StockIn => "stock_in"
    case StockOut => "stock_out"
  }

  /** The `in:stock_in,stock_out` rule: the request string names a type, or it does not. */
  function ParseType(s: string): (r: Option<TxnType>)
    ensures r.Some? <==> s == "stock_in" || s == "stock_out"
  {
    if s == "stock_in" then Some(StockIn)
    else if s == "stock_out" then Some(StockOut)
    else None
  }

  lemma TypeNameRoundTrip(k: TxnType, s: string)
    ensures ParseType(TypeName(k)) == Some(k)
    ensures ParseType(s) == Some(k) ==> TypeName(k) == s
  {
  }

  function RoleName(r: Role): string
  {
    match r
    case SuperAdmin => "super_admin"
    case Admin => "admin"
    case Regular => "user"
  }

  /** The `in:super_admin,admin,user` rule. */
  function ParseRole(s: string): (r: Option<Role>)
    ensures r.Some? <==> s == "super_admin" || s == "admin" || s == "user"
  {
    if s == "super_admin" then Some(SuperAdmin)
    else if s == "admin" then Some(Admin)
    else if s == "user" then Some(Regular)
    else None
  }

  lemma RoleNameRoundTrip(r: Role, s: string)
    ensures ParseRole(RoleName(r)) == Some(r)
    ensures ParseRole(s) == Some(r) ==> RoleName(r) == s
  {
  }

  /** The roles the admin directory manages (`whereIn('role', ['admin', 'super_admin'])`). */
  predicate IsStaff(r: Role)
  {
    r == Admin || r == SuperAdmin
  }

  /**
   * A `products` row. `price` is `harga_produk` in cents (the column is
   * `decimal:2`); `image` is the storage path of `gambar_produk`.
   */
  datatype Product = Product(
    name: string,
    description: Option<string>,
    image: Option<string>,
    categoryId: int,
    stock: int,
    price: int)

  /**
   * A `transactions` row: the five assignable columns (`product_id`, `type`,
   * `quantity`, `notes`, `user_id`) plus the generated `id` and `created_at`.
   * A row references exactly one product and exactly one user.
   */
  datatype Txn = Txn(
    id: int,
    productId: int,
    kind: TxnType,
    quantity: int,
    notes: Option<string>,
    userId: int,
    createdAt: int)

  /**
   * A `users` row. `firstName`, `lastName`, `birthDate` and `gender` are the
   * nullable columns `nama_depan`, `nama_belakang`, `tanggal_lahir` and
   * `jenis_kelamin`; `birthDate` is a day number.
   */
  datatype User = User(
    name: string,
    firstName: Option<string>,
    lastName: Option<string>,
    email: string,
    birthDate: Option<int>,
    gender: Option<string>,
    passwordHash: string,
    role: Role)

  /** The request fields a validator can reject. */
  datatype Field =
    | ProductIdField | TypeField | QuantityField
    | NameField | DescriptionField | ImageField | CategoryField | StockField | PriceField
    | FirstNameField | LastNameField | EmailField | BirthDateField | GenderField
    | PasswordField | CurrentPasswordField | RoleField

  /** The failures a controller action answers with. */
  datatype ApiError =
    | Invalid(fields: set<Field>)        // validator failed
    | NotFound                           // explicit "not found" answer
    | ServerError                        // an exception caught by the action's catch-all
    | InsufficientStock(available: int)  // stock_out larger than the stock
    | LastSuperAdmin                     // deleting the only super admin
    | CurrentPasswordRequired
    | CurrentPasswordIncorrect

  /** The HTTP status code each failure is answered with. */
  function Status(e: ApiError): (code: int)
    ensures 400 <= code < 600
    ensures code == 422 <==> e.Invalid? || e.CurrentPasswordRequired? || e.CurrentPasswordIncorrect?
  {
    match e
    case Invalid(_) => 422
    case NotFound => 404
    case ServerError => 500
    case InsufficientStock(_) => 400
    case LastSuperAdmin => 400
    case CurrentPasswordRequired => 422
    case CurrentPasswordIncorrect => 422
  }
}
