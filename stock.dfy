/** The stock movement of `update_stock`: a three-way transition on a product's stock level,
    recorded in an append-only ledger. The stock level of a product is, at every point, the
    replay of its ledger entries over the level it started from. */
module Stock {
  import opened Text
  import opened Accounts
  import opened Catalog
  import opened Forms

  /** The stock level after one movement of `quantity`, or `None` when an outgoing movement
      asks for more than is in stock ("Insufficient stock!"). */
  function ApplyMovement(stock: int, t: MovementType, quantity: int): (r: Option<int>)
    ensures r.None? <==> t == Out && quantity > stock
    ensures stock >= 0 && quantity >= 1 && r.Some? ==> r.value >= 0
    ensures t == Adjustment && quantity >= 1 ==> r.Some? && r.value >= 1
    ensures t == In && quantity >= 1 ==> r.Some? && r.value > stock
    ensures t == Out && r.Some? && quantity >= 1 ==> r.value < stock
  {
    match t
    case In => Some(stock + quantity)
    case Out => if stock >= quantity then Some(stock - quantity) else None
    case Adjustment => Some(quantity)
  }

  /** An incoming movement adds exactly its quantity, an accepted outgoing one removes exactly
      its quantity, and an adjustment sets the level to its quantity whatever it was. */
  lemma MovementDeltas(stock: int, quantity: int, other: int)
    ensures ApplyMovement(stock, In, quantity).value - stock == quantity
    ensures quantity <= stock ==> stock - ApplyMovement(stock, Out, quantity).value == quantity
    ensures ApplyMovement(stock, Adjustment, quantity) == ApplyMovement(other, Adjustment, quantity)
  {
  }

  /** The entries of the ledger that concern one product, in order. */
  function MovementsOf(ledger: seq<StockMovement>, sku: string): (r: seq<StockMovement>)
    ensures |r| <= |ledger|
    ensures forall m <- r :: m in ledger && m.product == sku
  {
    if ledger == [] then []
    else
      var rest := MovementsOf(ledger[..|ledger| - 1], sku);
      var last := ledger[|ledger| - 1];
      if last.product == sku then rest + [last] else rest
  }

  /** Replays ledger entries over a starting level; `None` if some entry could not have
      been accepted. */
  function Replay(stock: int, ms: seq<StockMovement>): Option<int>
  {
    if ms == [] then Some(stock)
    else
      match Replay(stock, ms[..|ms| - 1])
      case None => None
      case Some(s) => ApplyMovement(s, ms[|ms| - 1].movementType, ms[|ms| - 1].quantity)
  }

  /** The stock level of every product is the replay of its ledger over its `opening` level. */
  predicate LedgerAgrees(db: Db, opening: map<string, int>) {
    forall sku <- db.products ::
      sku in opening && Replay(opening[sku], MovementsOf(db.movements, sku)) == Some(db.products[sku].quantityInStock)
  }

  /** What `update_stock` answers to a request. */
  datatype StockOutcome =
    | NotFound                       // no product with that key (404)
    | FormInvalid                    // the form is shown again with its errors
    | InsufficientStock              // "Insufficient stock!"; back to the form
    | Updated(lowStockAlert: bool)   // saved and recorded; whether a low-stock alert is sent

  /** `update_stock` on a POST by a signed-in user: the new database and the outcome. */
  function StockUpdate(db: Db, sku: string, actor: User, form: StockForm): (r: (Db, StockOutcome))
    ensures r.1 != NotFound <==> sku in db.products
    ensures r.1.Updated? <==>
      sku in db.products && CleanStockUpdate(form).Some?
      && ApplyMovement(db.products[sku].quantityInStock, CleanStockUpdate(form).value.movementType,
                       CleanStockUpdate(form).value.quantity).Some?
    ensures !r.1.Updated? ==> r.0 == db
    ensures r.1.Updated? ==>
      var req := CleanStockUpdate(form).value;
      var p := db.products[sku];
      var stock := ApplyMovement(p.quantityInStock, req.movementType, req.quantity).value;
      && r.0 == db.(products := db.products[sku := p.(quantityInStock := stock)],
                    movements := db.movements + [StockMovement(sku, req.movementType, req.quantity, req.reason, Some(actor.username))])
      && (r.1.lowStockAlert <==> stock <= p.reorderLevel)
  {
    if sku !in db.products then (db, NotFound)
    else
      match CleanStockUpdate(form)
      case None => (db, FormInvalid)
      case Some(req) =>
        var p := db.products[sku];
        match ApplyMovement(p.quantityInStock, req.movementType, req.quantity)
        case None => (db, InsufficientStock)
        case Some(stock) =>
          var p' := p.(quantityInStock := stock);
          var m := StockMovement(sku, req.movementType, req.quantity, req.reason, Some(actor.username));
          (db.(products := db.products[sku := p'], movements := db.movements + [m]), Updated(IsLowStock(p')))
  }

  /** The ledger only grows, by exactly one entry per accepted movement, and that entry carries
      the requested quantity (for an adjustment, the new level rather than the change). */
  lemma {:induction false} LedgerAppendOnly(db: Db, sku: string, actor: User, form: StockForm)
    ensures var (db', out) := StockUpdate(db, sku, actor, form);
      && db'.movements[..|db.movements|] == db.movements
      && |db'.movements| == |db.movements| + (if out.Updated? then 1 else 0)
      && (out.Updated? ==> db'.movements[|db.movements|].quantity == CleanStockUpdate(form).value.quantity)
  {
    var (db', out) := StockUpdate(db, sku, actor, form);
    if out.Updated? {
      assert db'.movements[..|db.movements|] == db.movements;
    }
  }

  lemma {:induction false} MovementsOfAppend(ledger: seq<StockMovement>, m: StockMovement, sku: string)
    ensures MovementsOf(ledger + [m], sku) == MovementsOf(ledger, sku) + (if m.product == sku then [m] else [])
  {
    assert (ledger + [m])[..|ledger + [m]| - 1] == ledger;
  }

  /** An accepted movement keeps the database valid and the stock levels in agreement with
      the ledger; a refused one changes nothing. */
  lemma {:induction false} StockUpdatePreserves(db: Db, opening: map<string, int>, sku: string, actor: User, form: StockForm)
    requires ValidDb(db) && LedgerAgrees(db, opening)
    ensures ValidDb(StockUpdate(db, sku, actor, form).0)
    ensures LedgerAgrees(StockUpdate(db, sku, actor, form).0, opening)
  {
    var (db', out) := StockUpdate(db, sku, actor, form);
    if out.Updated? {
      var req := CleanStockUpdate(form).value;
      var stock := ApplyMovement(db.products[sku].quantityInStock, req.movementType, req.quantity).value;
      var m := StockMovement(sku, req.movementType, req.quantity, req.reason, Some(actor.username));
      RecordKeepsValid(db, sku, stock, m);
      RecordKeepsLedger(db, opening, sku, stock, m);
    }
  }

  /** Setting a valid stock level on a product and appending a valid entry about it keeps the
      database valid. */
  lemma RecordKeepsValid(db: Db, sku: string, stock: int, m: StockMovement)
    requires ValidDb(db) && sku in db.products && stock >= 0
    requires m.product == sku && ValidMovement(m)
    ensures ValidDb(db.(products := db.products[sku := db.products[sku].(quantityInStock := stock)],
                        movements := db.movements + [m]))
  {
  }

  /** Setting a product's level to the result of applying an entry about it, and appending that
      entry, keeps every level equal to its replay. */
  lemma RecordKeepsLedger(db: Db, opening: map<string, int>, sku: string, stock: int, m: StockMovement)
    requires LedgerAgrees(db, opening) && sku in db.products && m.product == sku
    requires ApplyMovement(db.products[sku].quantityInStock, m.movementType, m.quantity) == Some(stock)
    ensures LedgerAgrees(db.(products := db.products[sku := db.products[sku].(quantityInStock := stock)],
                             movements := db.movements + [m]), opening)
  {
    var db' := db.(products := db.products[sku := db.products[sku].(quantityInStock := stock)],
                   movements := db.movements + [m]);
    forall k | k in db'.products
      ensures k in opening && Replay(opening[k], MovementsOf(db'.movements, k)) == Some(db'.products[k].quantityInStock)
    {
      MovementsOfAppend(db.movements, m, k);
      if k == sku {
        var ms := MovementsOf(db'.movements, k);
        assert ms[..|ms| - 1] == MovementsOf(db.movements, k);
      }
    }
  }
}
