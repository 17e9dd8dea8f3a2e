/** The records of the inventory application (categories, suppliers, products and the stock
    ledger), the read-only values derived from a product, and the database that holds them. */
module Catalog {
  import opened Text

  /** A calendar day, as a count of days from a fixed origin. */
  type Day = int

  datatype Category = Category(name: string, description: string)

  datatype Supplier = Supplier(
    name: string,
    email: string,
    phoneNumber: string,
    website: string,
    address: string,
    city: string,
    country: string)

  /** A product. `category` and `suppliers` refer to categories and suppliers by their
      names; `unitPrice` is in hundredths (the column keeps two decimal places);
      `createdBy` is the creating user's username. */
  datatype Product = Product(
    name: string,
    sku: string,
    category: Option<string>,
    suppliers: set<string>,
    description: string,
    unitPrice: int,
    quantityInStock: int,
    reorderLevel: int,
    isPerishable: bool,
    expiryDate: Option<Day>,
    createdBy: Option<string>)

  datatype MovementType = In | Out | Adjustment

  /** One ledger row. `product` is the product's SKU. */
  datatype StockMovement = StockMovement(
    product: string,
    movementType: MovementType,
    quantity: int,
    reason: string,
    performedBy: Option<string>)

  const DefaultQuantityInStock := 0
  const DefaultReorderLevel := 10
  const ExpiryWindowDays := 7

  /** The value of a movement type as stored in the `movement_type` column. */
  function MovementCode(t: MovementType): string {
    match t
    case In => "in"
    case Out => "out"
    case Adjustment => "adjustment"
  }

  /** `Product.is_low_stock`. */
  predicate IsLowStock(p: Product) {
    p.quantityInStock <= p.reorderLevel
  }

  datatype StockStatus = OutOfStock | LowStock | InStock

  /** The text `get_stock_status` returns. */
  function StatusLabel(s: StockStatus): string {
    match s
    case OutOfStock => "Out of Stock"
    case LowStock => "Low Stock"
    case InStock => "In Stock"
  }

  /** `Product.get_stock_status`: exactly one of the three states, decided by the stock and the
      reorder level. */
  function GetStockStatus(p: Product): (s: StockStatus)
    ensures s == OutOfStock <==> p.quantityInStock == 0
    ensures s == LowStock <==> p.quantityInStock != 0 && p.quantityInStock <= p.reorderLevel
    ensures s == InStock <==> p.quantityInStock != 0 && p.quantityInStock > p.reorderLevel
  {
    if p.quantityInStock == 0 then OutOfStock
    else if IsLowStock(p) then LowStock
    else InStock
  }

  /** With a non-negative reorder level, a product out of stock is also low on stock, so
      "not In Stock" and `is_low_stock` coincide. */
  lemma StatusAgreesWithLowStock(p: Product)
    requires p.reorderLevel >= 0
    ensures GetStockStatus(p) == OutOfStock ==> IsLowStock(p)
    ensures GetStockStatus(p) != InStock <==> IsLowStock(p)
  {
  }

  /** `Product.get_total_value`: stock times unit price, in hundredths. */
  function GetTotalValue(p: Product): (v: int)
    ensures p.quantityInStock == 0 || p.unitPrice == 0 ==> v == 0
    ensures p.quantityInStock >= 0 && p.unitPrice >= 0 ==> v >= 0
    ensures p.quantityInStock > 0 && p.unitPrice >= 0 ==> v >= p.unitPrice
  {
    p.quantityInStock * p.unitPrice
  }

  /** `Product.is_expiring_soon` on the given day: a perishable product with an expiry date
      at most seven days ahead, which includes dates already past. */
  predicate IsExpiringSoon(p: Product, today: Day) {
    p.isPerishable && p.expiryDate.Some? && p.expiryDate.value - today <= ExpiryWindowDays
  }

  /** Once a product is expiring soon it stays so on every later day; an expired perishable
      product is always expiring soon; a product without a date or not perishable never is. */
  lemma ExpiringSoonIsPermanent(p: Product, today: Day, later: Day)
    requires today <= later
    ensures IsExpiringSoon(p, today) ==> IsExpiringSoon(p, later)
    ensures p.isPerishable && p.expiryDate.Some? && p.expiryDate.value < today ==> IsExpiringSoon(p, today)
    ensures !p.isPerishable || p.expiryDate.None? ==> !IsExpiringSoon(p, today)
  {
  }

  /** The column constraints of a product: a non-empty SKU, and price, stock and reorder
      level not negative. */
  predicate ValidProduct(p: Product) {
    && p.sku != ""
    && p.unitPrice >= 0
    && p.quantityInStock >= 0
    && p.reorderLevel >= 0
  }

  /** The column constraints of a ledger row (the movement type is one of the three by
      construction). */
  predicate ValidMovement(m: StockMovement) {
    m.quantity >= 1
  }

  /** The tables of the application. Products are keyed by SKU, categories and suppliers by
      name; the ledger is in creation order. */
  datatype Db = Db(
    products: map<string, Product>,
    categories: map<string, Category>,
    suppliers: map<string, Supplier>,
    movements: seq<StockMovement>)

  /** Supplier e-mail addresses are unique. */
  predicate UniqueEmails(suppliers: map<string, Supplier>) {
    forall a <- suppliers, b <- suppliers :: a != b ==> suppliers[a].email != suppliers[b].email
  }

  /** The integrity constraints of the database: keys agree with the records, every record
      meets its column constraints, every reference resolves, and e-mails are unique. */
  predicate ValidDb(db: Db) {
    && (forall sku <- db.products :: db.products[sku].sku == sku && ValidProduct(db.products[sku]))
    && (forall sku <- db.products ::
          db.products[sku].category.Some? ==> db.products[sku].category.value in db.categories)
    && (forall sku <- db.products :: forall s <- db.products[sku].suppliers :: s in db.suppliers)
    && (forall c <- db.categories :: db.categories[c].name == c)
    && (forall s <- db.suppliers :: db.suppliers[s].name == s)
    && UniqueEmails(db.suppliers)
    && (forall m <- db.movements :: m.product in db.products && ValidMovement(m))
  }

  const EmptyDb := Db(map[], map[], map[], [])
}
