/**
 * The stock routes (`/api/estoque`) of both servers. A product's stock is the
 * pair (`estoque_quantidade`, `estoque_minimo`); a null quantity means the
 * product is not tracked, and order handlers then never block on it. The
 * handlers adjust either number, switch tracking on (with defaults 0 and 5)
 * or off, and list the tracked products and the low-stock alerts. Express
 * mounts the whole router behind the managers' role gate; the Workers
 * handlers check no role.
 */
module Stock {
  import opened Common
  import opened Schema
  import opened Sorting
  import opened Text
  import opened SqlLike
  import opened Middleware

  datatype StockError = Unauthorized | Forbidden | NothingToAdjust | NegativeQuantity | NegativeMinimum | ProductNotFound

  function StockStatusCode(e: StockError): (code: int)
    ensures code == 401 <==> e == Unauthorized
    ensures code == 403 <==> e == Forbidden
    ensures code == 404 <==> e == ProductNotFound
    ensures code !in {401, 403, 404} ==> code == 400
  {
    match e
    case Unauthorized => 401
    case Forbidden => 403
    case ProductNotFound => 404
    case _ => 400
  }

  /**
   * The gate in front of every stock handler: Express mounts `/api/estoque`
   * behind `roleMiddleware('admin', 'gerente')`, so a request without a user
   * is a 401 and any other profile a 403 before the handler runs. The Workers
   * handlers receive the user but check no role.
   */
  function StockGate(dep: Deployment, actor: Option<Actor>): (r: Option<StockError>)
    ensures dep == Backend ==> (r.None? <==> RoleAllowed(actor, Managers))
    ensures dep == Backend ==> (r == Some(Unauthorized) <==> actor.None?)
    ensures dep == Backend ==> (r == Some(Forbidden) <==> actor.Some? && actor.value.perfil !in Managers)
    ensures dep == Cloudflare ==> r.None?
  {
    if dep == Cloudflare then None
    else match RoleCheck(actor, Managers)
      case None => None
      case Some(NotAuthenticated) => Some(Unauthorized)
      case Some(RoleDenied) => Some(Forbidden)
  }

  // ---------------------------------------------------------------- adjusting

  /**
   * The quantity the adjustment uses: on Express only `quantidade`; on Workers
   * `estoque_quantidade` when it is sent, else `quantidade`.
   */
  function AdjustQuantity(dep: Deployment, quantidade: Field<int>, estoqueQuantidade: Field<int>): (r: Field<int>)
    ensures dep == Backend ==> r == quantidade
    ensures dep == Cloudflare && estoqueQuantidade.Defined? ==> r == estoqueQuantidade
    ensures dep == Cloudflare && estoqueQuantidade.Undefined? ==> r == quantidade
  {
    if dep == Cloudflare && estoqueQuantidade.Defined? then estoqueQuantidade else quantidade
  }

  /** A field sent with a negative number. A null is not negative (`null < 0` is false). */
  predicate IsNegative(f: Field<int>) {
    f.Defined? && f.value.Some? && f.value.value < 0
  }

  /** The checks of PUT /api/estoque/:id, in order; they all come before the write. */
  function CheckAdjust(qty: Field<int>, minimo: Field<int>): (e: Option<StockError>)
    ensures e == Some(NothingToAdjust) <==> qty.Undefined? && minimo.Undefined?
    ensures e == Some(NegativeQuantity) <==> (qty.Defined? || minimo.Defined?) && IsNegative(qty)
    ensures e == Some(NegativeMinimum) <==> (qty.Defined? || minimo.Defined?) && !IsNegative(qty) && IsNegative(minimo)
    ensures e.None? <==> (qty.Defined? || minimo.Defined?) && !IsNegative(qty) && !IsNegative(minimo)
  {
    if qty.Undefined? && minimo.Undefined? then Some(NothingToAdjust)
    else if IsNegative(qty) then Some(NegativeQuantity)
    else if IsNegative(minimo) then Some(NegativeMinimum)
    else None
  }

  /** One `SET column = ?` of the built UPDATE: only a field that was sent is written. */
  function SetIfSent(current: Option<int>, f: Field<int>): Option<int> {
    if f.Defined? then f.value else current
  }

  function Adjusted(p: Product, qty: Field<int>, minimo: Field<int>): Product {
    p.(estoque := SetIfSent(p.estoque, qty), estoqueMinimo := SetIfSent(p.estoqueMinimo, minimo))
  }

  /** Only the fields sent change; the other stock field and the rest of the product are kept. */
  lemma AdjustedSpec(p: Product, qty: Field<int>, minimo: Field<int>)
    ensures Adjusted(p, qty, minimo).(estoque := p.estoque, estoqueMinimo := p.estoqueMinimo) == p
    ensures qty.Undefined? ==> Adjusted(p, qty, minimo).estoque == p.estoque
    ensures qty.Defined? ==> Adjusted(p, qty, minimo).estoque == qty.value
    ensures minimo.Undefined? ==> Adjusted(p, qty, minimo).estoqueMinimo == p.estoqueMinimo
    ensures minimo.Defined? ==> Adjusted(p, qty, minimo).estoqueMinimo == minimo.value
  {
  }

  /** Sending the same adjustment twice has the effect of sending it once. */
  lemma AdjustIdempotent(p: Product, qty: Field<int>, minimo: Field<int>)
    ensures Adjusted(Adjusted(p, qty, minimo), qty, minimo) == Adjusted(p, qty, minimo)
  {
  }

  /**
   * PUT /api/estoque/:id. The body checks come first; an unknown product is
   * found only by the UPDATE, which then touches no row (404).
   */
  method AdjustStock(db: Database, dep: Deployment, actor: Option<Actor>, pid: int, quantidade: Field<int>,
                     estoqueQuantidade: Field<int>, minimo: Field<int>)
    returns (r: Result<Product, StockError>)
    requires db.Valid()
    modifies db`products
    ensures db.Valid()
    ensures StockGate(dep, actor).Some? ==> r == Err(StockGate(dep, actor).value)
    ensures StockGate(dep, actor).None? ==>
      var qty := AdjustQuantity(dep, quantidade, estoqueQuantidade);
      && (r.Err? <==> CheckAdjust(qty, minimo).Some? || pid !in old(db.products))
      && (CheckAdjust(qty, minimo).Some? ==> r == Err(CheckAdjust(qty, minimo).value))
      && (r.Ok? ==> pid in old(db.products)
                    && r.value == Adjusted(old(db.products)[pid], qty, minimo)
                    && db.products == old(db.products)[pid := r.value])
    ensures r == Err(ProductNotFound) <==>
      StockGate(dep, actor).None? && CheckAdjust(AdjustQuantity(dep, quantidade, estoqueQuantidade), minimo).None?
      && pid !in old(db.products)
    ensures r.Err? ==> unchanged(db)
  {
    var gate := StockGate(dep, actor);
    if gate.Some? {
      return Err(gate.value);
    }
    var qty := AdjustQuantity(dep, quantidade, estoqueQuantidade);
    var check := CheckAdjust(qty, minimo);
    if check.Some? {
      return Err(check.value);
    }
    if pid !in db.products {
      return Err(ProductNotFound);
    }
    var p := Adjusted(db.products[pid], qty, minimo);
    db.products := db.products[pid := p];
    return Ok(p);
  }

  // ---------------------------------------------------------------- switching tracking on and off

  /** `ativar`: quantity and minimum as sent, 0 and 5 when left out. */
  function Activated(p: Product, quantidade: Field<int>, minimo: Field<int>): Product {
    p.(estoque := DefaultTo(quantidade, 0), estoqueMinimo := DefaultTo(minimo, 5))
  }

  /** `desativar`: both stock fields become null, so the product is no longer tracked. */
  function Deactivated(p: Product): Product {
    p.(estoque := None, estoqueMinimo := None)
  }

  /**
   * The Workers-only `controle` toggle: on keeps the numbers already set and
   * fills a null quantity with 0 and a null minimum with 5; off is `desativar`.
   */
  function Controlled(p: Product, on: bool): Product {
    if on then
      p.(estoque := if p.estoque.Some? then p.estoque else Some(0),
         estoqueMinimo := if p.estoqueMinimo.Some? then p.estoqueMinimo else Some(5))
    else Deactivated(p)
  }

  /** With nothing in the body, `ativar` starts tracking at quantity 0 and minimum 5. */
  lemma ActivateDefaults(p: Product)
    ensures Activated(p, Undefined, Undefined).estoque == Some(0)
    ensures Activated(p, Undefined, Undefined).estoqueMinimo == Some(5)
    ensures Activated(p, Undefined, Undefined).(estoque := p.estoque, estoqueMinimo := p.estoqueMinimo) == p
  {
  }

  /**
   * Switching control on tracks the product, keeps numbers already set, and
   * is idempotent; switching it off is the same as `desativar`; and switching
   * it on an untracked product is `ativar` with the defaults.
   */
  lemma ControlledSpec(p: Product)
    ensures Controlled(p, true).estoque.Some? && Controlled(p, true).estoqueMinimo.Some?
    ensures p.estoque.Some? ==> Controlled(p, true).estoque == p.estoque
    ensures p.estoqueMinimo.Some? ==> Controlled(p, true).estoqueMinimo == p.estoqueMinimo
    ensures Controlled(Controlled(p, true), true) == Controlled(p, true)
    ensures Controlled(p, false) == Deactivated(p) && Controlled(p, false).estoque.None?
    ensures p.estoque.None? && p.estoqueMinimo.None? ==> Controlled(p, true) == Activated(p, Undefined, Undefined)
  {
  }

  /** `ativar`, `desativar` and `controle` share one shape: an unknown id gives 404, otherwise one row is rewritten. */
  method UpdateTracking(db: Database, pid: int, p: Product) returns (r: Result<Product, StockError>)
    requires db.Valid()
    modifies db`products
    ensures db.Valid()
    ensures r.Err? <==> pid !in old(db.products)
    ensures r.Err? ==> r.error == ProductNotFound && unchanged(db)
    ensures r.Ok? ==> r.value == p && db.products == old(db.products)[pid := p]
  {
    if pid !in db.products {
      return Err(ProductNotFound);
    }
    db.products := db.products[pid := p];
    return Ok(p);
  }

  /** POST /api/estoque/:id/ativar. */
  method ActivateStock(db: Database, dep: Deployment, actor: Option<Actor>, pid: int, quantidade: Field<int>,
                       minimo: Field<int>)
    returns (r: Result<Product, StockError>)
    requires db.Valid()
    modifies db`products
    ensures db.Valid()
    ensures StockGate(dep, actor).Some? ==> r == Err(StockGate(dep, actor).value)
    ensures r == Err(ProductNotFound) <==> StockGate(dep, actor).None? && pid !in old(db.products)
    ensures r.Err? ==> unchanged(db)
    ensures r.Ok? <==> StockGate(dep, actor).None? && pid in old(db.products)
    ensures r.Ok? ==> r.value == Activated(old(db.products)[pid], quantidade, minimo)
                      && db.products == old(db.products)[pid := r.value]
  {
    var gate := StockGate(dep, actor);
    if gate.Some? {
      return Err(gate.value);
    }
    if pid !in db.products {
      return Err(ProductNotFound);
    }
    r := UpdateTracking(db, pid, Activated(db.products[pid], quantidade, minimo));
  }

  /** POST /api/estoque/:id/desativar. */
  method DeactivateStock(db: Database, dep: Deployment, actor: Option<Actor>, pid: int)
    returns (r: Result<Product, StockError>)
    requires db.Valid()
    modifies db`products
    ensures db.Valid()
    ensures StockGate(dep, actor).Some? ==> r == Err(StockGate(dep, actor).value)
    ensures r == Err(ProductNotFound) <==> StockGate(dep, actor).None? && pid !in old(db.products)
    ensures r.Err? ==> unchanged(db)
    ensures r.Ok? <==> StockGate(dep, actor).None? && pid in old(db.products)
    ensures r.Ok? ==> r.value == Deactivated(old(db.products)[pid])
                      && db.products == old(db.products)[pid := r.value]
  {
    var gate := StockGate(dep, actor);
    if gate.Some? {
      return Err(gate.value);
    }
    if pid !in db.products {
      return Err(ProductNotFound);
    }
    r := UpdateTracking(db, pid, Deactivated(db.products[pid]));
  }

  /**
   * PUT /api/estoque/:id/controle, a Workers-only route, so no role gate
   * applies: `on` is the truthiness of `controle_estoque`.
   */
  method SetStockControl(db: Database, pid: int, on: bool) returns (r: Result<Product, StockError>)
    requires db.Valid()
    modifies db`products
    ensures db.Valid()
    ensures r.Err? <==> pid !in old(db.products)
    ensures r.Err? ==> r.error == ProductNotFound && unchanged(db)
    ensures r.Ok? ==> r.value == Controlled(old(db.products)[pid], on)
                      && db.products == old(db.products)[pid := r.value]
  {
    if pid !in db.products {
      return Err(ProductNotFound);
    }
    r := UpdateTracking(db, pid, Controlled(db.products[pid], on));
  }

  // ---------------------------------------------------------------- listing

  /** A product row of a query, with its id. */
  type ProductRow = (int, Product)

  /** `estoque_quantidade <= estoque_minimo` in SQL: false when either side is null. */
  predicate AtOrBelowMinimum(p: Product) {
    p.estoque.Some? && p.estoqueMinimo.Some? && p.estoque.value <= p.estoqueMinimo.value
  }

  /**
   * The `busca` filter: `nome` or `codigo` matches the pattern
   * `'%' + busca + '%'` (`ILIKE` on PostgreSQL, `LIKE` on SQLite).
   */
  predicate MatchesSearch(dep: Deployment, p: Product, busca: Option<string>) {
    !TruthyStr(busca)
    || LikeSearch(dep, busca.value, p.nome)
    || (p.codigo.Some? && LikeSearch(dep, busca.value, p.codigo.value))
  }

  /** The rows of GET /api/estoque: tracked products, optionally only those at or below their minimum. */
  predicate InStockList(dep: Deployment, baixo: Option<string>, busca: Option<string>, row: ProductRow) {
    row.1.estoque.Some?
    && (baixo == Some("true") ==> AtOrBelowMinimum(row.1))
    && MatchesSearch(dep, row.1, busca)
  }

  /** The first sort key: 0 for a product at or below its minimum (a null minimum counting as 0), else 1. */
  function LowRank(p: Product): (k: int)
    ensures k == 0 || k == 1
  {
    if p.estoque.Some? && p.estoque.value <= (if p.estoqueMinimo.Some? then p.estoqueMinimo.value else 0) then 0 else 1
  }

  /** Low-stock rows first, then by name. */
  predicate StockListLe(a: ProductRow, b: ProductRow) {
    KeyThenStrLe(LowRank(a.1), a.1.nome, LowRank(b.1), b.1.nome)
  }

  function StockList(dep: Deployment, rows: seq<ProductRow>, baixo: Option<string>, busca: Option<string>): seq<ProductRow> {
    SortBy(Where(rows, row => InStockList(dep, baixo, busca, row)), StockListLe)
  }

  lemma StockListLeTotal()
    ensures TotalPreorder(StockListLe)
  {
    forall a: ProductRow, b: ProductRow ensures StockListLe(a, b) || StockListLe(b, a) {
      KeyThenStrLeTotal(LowRank(a.1), a.1.nome, LowRank(b.1), b.1.nome);
    }
    forall a: ProductRow, b: ProductRow, c: ProductRow | StockListLe(a, b) && StockListLe(b, c)
      ensures StockListLe(a, c)
    {
      KeyThenStrLeTrans(LowRank(a.1), a.1.nome, LowRank(b.1), b.1.nome, LowRank(c.1), c.1.nome);
    }
  }

  /**
   * The list holds exactly the tracked rows that pass the filters, each as
   * often as in the table, with every low-stock row before every other and
   * rows of the same rank by name.
   */
  lemma StockListSpec(dep: Deployment, rows: seq<ProductRow>, baixo: Option<string>, busca: Option<string>)
    ensures forall row :: row in StockList(dep, rows, baixo, busca) <==> row in rows && InStockList(dep, baixo, busca, row)
    ensures multiset(StockList(dep, rows, baixo, busca)) == multiset(Where(rows, row => InStockList(dep, baixo, busca, row)))
    ensures SortedBy(StockList(dep, rows, baixo, busca), StockListLe)
    ensures forall i, j :: 0 <= i < j < |StockList(dep, rows, baixo, busca)| ==>
      LowRank(StockList(dep, rows, baixo, busca)[i].1) <= LowRank(StockList(dep, rows, baixo, busca)[j].1)
  {
    StockListLeTotal();
    SelectSpec(rows, row => InStockList(dep, baixo, busca, row), StockListLe);
  }

  /** GET /api/estoque behind its gate: a refused caller gets the gate's error, anyone else the list. */
  function ListStock(dep: Deployment, actor: Option<Actor>, rows: seq<ProductRow>, baixo: Option<string>,
                     busca: Option<string>): (r: Result<seq<ProductRow>, StockError>)
    ensures r.Err? <==> StockGate(dep, actor).Some?
    ensures r.Err? ==> r.error == StockGate(dep, actor).value
    ensures r.Ok? ==> forall row :: row in r.value <==> row in rows && InStockList(dep, baixo, busca, row)
    ensures r.Ok? ==> SortedBy(r.value, StockListLe)
  {
    if StockGate(dep, actor).Some? then Err(StockGate(dep, actor).value)
    else
      StockListSpec(dep, rows, baixo, busca);
      Ok(StockList(dep, rows, baixo, busca))
  }

  /** The rows of GET /api/estoque/alertas: active, tracked, with a minimum, and at or below it. */
  predicate IsAlert(row: ProductRow) {
    row.1.ativo && AtOrBelowMinimum(row.1)
  }

  /** How far a product is from its minimum (`estoque_quantidade - estoque_minimo`). */
  function Gap(p: Product): int {
    (if p.estoque.Some? then p.estoque.value else 0) - (if p.estoqueMinimo.Some? then p.estoqueMinimo.value else 0)
  }

  predicate GapLe(a: ProductRow, b: ProductRow) {
    Gap(a.1) <= Gap(b.1)
  }

  function Alerts(rows: seq<ProductRow>): seq<ProductRow> {
    SortBy(Where(rows, IsAlert), GapLe)
  }

  /** The alerts are exactly the active rows at or below their minimum, the furthest below first. */
  lemma AlertsSpec(rows: seq<ProductRow>)
    ensures forall row :: row in Alerts(rows) <==> row in rows && IsAlert(row)
    ensures multiset(Alerts(rows)) == multiset(Where(rows, IsAlert))
    ensures forall row :: row in Alerts(rows) ==> Gap(row.1) <= 0
    ensures forall i, j :: 0 <= i < j < |Alerts(rows)| ==> Gap(Alerts(rows)[i].1) <= Gap(Alerts(rows)[j].1)
  {
    SelectSpec(rows, IsAlert, GapLe);
  }

  /** GET /api/estoque/alertas behind its gate. */
  function ListAlerts(dep: Deployment, actor: Option<Actor>, rows: seq<ProductRow>): (r: Result<seq<ProductRow>, StockError>)
    ensures r.Err? <==> StockGate(dep, actor).Some?
    ensures r.Err? ==> r.error == StockGate(dep, actor).value
    ensures r.Ok? ==> forall row :: row in r.value <==> row in rows && IsAlert(row)
    ensures r.Ok? ==> forall i, j :: 0 <= i < j < |r.value| ==> Gap(r.value[i].1) <= Gap(r.value[j].1)
  {
    if StockGate(dep, actor).Some? then Err(StockGate(dep, actor).value)
    else
      AlertsSpec(rows);
      Ok(Alerts(rows))
  }

  /** A waiter or cashier is refused every stock route on Express, before any handler runs. */
  lemma StaffRefused(rows: seq<ProductRow>, a: Actor)
    requires a.perfil == "garcom" || a.perfil == "caixa"
    ensures StockGate(Backend, Some(a)) == Some(Forbidden)
    ensures ListStock(Backend, Some(a), rows, None, None) == Err(Forbidden)
    ensures ListAlerts(Backend, Some(a), rows) == Err(Forbidden)
  {
  }
}
