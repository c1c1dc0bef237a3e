/**
 * The order routes (`/api/pedidos`) of both servers: open an order, add an
 * item, move an item through the kitchen statuses, remove an item, close and
 * cancel. Each handler is one step on the `Database`: on the Express server it
 * runs inside one transaction, on Workers the same statements run one after
 * another; in both cases an error answer leaves the tables as they were
 * (on Workers because every check precedes the first write).
 */
module Orders {
  import opened Common
  import opened Schema
  import opened Ledger
  import opened Middleware

  datatype OrderError =
    | TableBusy(pedidoId: int)            // the table's active order, sent back as `pedido_id`
    | MissingProduct
    | BadQuantity
    | ProductNotFound
    | InsufficientStock(disponivel: int)  // the stock the message reports
    | InvalidStatus
    | ItemNotFound
    | OrderNotFound
    | PaymentIncomplete
    | AlreadyPaid
    | NotSupervisor
    | MissingPassword
    | SupervisorNotFound
    | WrongSupervisorPassword

  function OrderStatusCode(e: OrderError): (code: int)
    ensures code in {400, 403, 404}
    ensures code == 404 <==> e.ProductNotFound? || e.ItemNotFound? || e.OrderNotFound? || e.SupervisorNotFound?
    ensures code == 403 <==> e.NotSupervisor? || e.WrongSupervisorPassword?
  {
    match e
    case ProductNotFound => 404
    case ItemNotFound => 404
    case OrderNotFound => 404
    case SupervisorNotFound => 404
    case NotSupervisor => 403
    case WrongSupervisorPassword => 403
    case _ => 400
  }

  // ---------------------------------------------------------------- opening an order

  /** Some order on table `mesa` is still open, in production or ready. */
  ghost predicate ActiveOrderAt(orders: map<int, Order>, mesa: int) {
    exists k :: k in orders && orders[k].mesa == Some(mesa) && IsActive(orders[k].status)
  }

  /** The rule order creation enforces: a (non-zero) table has at most one active order. */
  ghost predicate OneActivePerTable(orders: map<int, Order>) {
    forall a, b ::
      (a in orders && b in orders && TruthyInt(orders[a].mesa) && orders[a].mesa == orders[b].mesa
       && IsActive(orders[a].status) && IsActive(orders[b].status)) ==> a == b
  }

  /** Inserting an order on a table without an active order keeps the rule. */
  lemma InsertKeepsOneActive(orders: map<int, Order>, id: int, o: Order)
    requires OneActivePerTable(orders) && id !in orders
    requires TruthyInt(o.mesa) ==> !ActiveOrderAt(orders, o.mesa.value)
    ensures OneActivePerTable(orders[id := o])
  {
  }

  /**
   * Forcing an order to `pronto` once its items are all done ignores its
   * status, so a cancelled order whose table has since been reopened becomes
   * active again next to the new order.
   */
  lemma ForcedReadyCanBreakOneActive()
    ensures var o := Order(Some(5), Some("mesa"), None, None, None, Aberto, 0, 0, 0, 0, None);
      var orders := map[1 := o.(status := Cancelado), 2 := o];
      OneActivePerTable(orders) && PendingCount([], 1) == 0
      && !OneActivePerTable(SetOrderStatus(orders, 1, Pronto))
  {
    var o := Order(Some(5), Some("mesa"), None, None, None, Aberto, 0, 0, 0, 0, None);
    var after := SetOrderStatus(map[1 := o.(status := Cancelado), 2 := o], 1, Pronto);
    assert after[1].mesa == after[2].mesa && IsActive(after[1].status) && IsActive(after[2].status);
  }

  /**
   * The readiness step as it is evidently meant: only an order that is still
   * active moves to `pronto` once none of its items is pending; a paid or
   * cancelled order keeps its status.
   */
  function IntendedReady(orders: map<int, Order>, items: seq<Item>, oid: int): (r: map<int, Order>)
    ensures r.Keys == orders.Keys
    ensures forall k :: k in orders && k != oid ==> r[k] == orders[k]
    ensures oid in orders && !IsActive(orders[oid].status) ==> r[oid] == orders[oid]
    ensures oid in orders && IsActive(orders[oid].status) ==>
      r[oid] == orders[oid].(status := if PendingCount(items, oid) == 0 then Pronto else orders[oid].status)
  {
    if PendingCount(items, oid) == 0 && oid in orders && IsActive(orders[oid].status) then
      SetOrderStatus(orders, oid, Pronto)
    else orders
  }

  /** The intended readiness step never adds an active order, so it keeps one active order per table. */
  lemma IntendedReadyKeepsOneActive(orders: map<int, Order>, items: seq<Item>, oid: int)
    requires OneActivePerTable(orders)
    ensures OneActivePerTable(IntendedReady(orders, items, oid))
    ensures forall k :: k in orders ==> (IsActive(IntendedReady(orders, items, oid)[k].status) <==> IsActive(orders[k].status))
  {
    var r := IntendedReady(orders, items, oid);
    forall k | k in orders ensures r[k].mesa == orders[k].mesa && (IsActive(r[k].status) <==> IsActive(orders[k].status)) {
    }
  }

  /**
   * POST /api/pedidos. A truthy table with an active order is refused with
   * that order's id; otherwise the order is inserted (`tipo` defaults to
   * "mesa" only when left out, and a `tipo` sent as null is stored as NULL; status `aberto`, zero totals, the caller as
   * waiter) and a truthy table becomes `ocupada`.
   */
  method CreateOrder(db: Database, dep: Deployment, actor: Option<Actor>, mesa: Option<int>, tipo: Field<string>,
                     cliente: Option<string>, observacao: Option<string>)
    returns (r: Result<int, OrderError>)
    requires db.Valid()
    modifies db`orders, db`nextOrder, db`tables
    ensures db.Valid()
    ensures r.Err? <==> TruthyInt(mesa) && ActiveOrderAt(old(db.orders), mesa.value)
    ensures r.Err? ==>
      (r.error.TableBusy? && r.error.pedidoId in db.orders
       && db.orders[r.error.pedidoId].mesa == mesa && IsActive(db.orders[r.error.pedidoId].status)
       && unchanged(db))
    ensures r.Ok? ==>
      (r.value == old(db.nextOrder) && r.value !in old(db.orders) && db.nextOrder == r.value + 1
       && db.orders == old(db.orders)[r.value := Order(
            StoredRef(dep, mesa), DefaultTo(tipo, "mesa"),
            StoredText(dep, cliente), StoredText(dep, observacao),
            if actor.Some? then Some(actor.value.id) else None,
            Aberto, 0, 0, 0, 0, None)]
       && db.tables == SetTableStatus(old(db.tables), mesa, Ocupada))
    ensures r.Ok? && OneActivePerTable(old(db.orders)) ==> OneActivePerTable(db.orders)
  {
    if TruthyInt(mesa) && exists k :: k in db.orders && db.orders[k].mesa == Some(mesa.value) && IsActive(db.orders[k].status) {
      var k :| k in db.orders && db.orders[k].mesa == Some(mesa.value) && IsActive(db.orders[k].status);
      return Err(TableBusy(k));
    }
    var garcom := if actor.Some? then Some(actor.value.id) else None;
    var o := Order(StoredRef(dep, mesa), DefaultTo(tipo, "mesa"),
                   StoredText(dep, cliente), StoredText(dep, observacao), garcom, Aberto, 0, 0, 0, 0, None);
    if OneActivePerTable(db.orders) {
      InsertKeepsOneActive(db.orders, db.nextOrder, o);
    }
    var id := InsertOrder(db, o, mesa);
    return Ok(id);
  }

  /** The writes of the create-order route: the new row, then the table marked `ocupada`. */
  method InsertOrder(db: Database, o: Order, mesa: Option<int>) returns (id: int)
    requires db.Valid()
    modifies db`orders, db`nextOrder, db`tables
    ensures db.Valid()
    ensures id == old(db.nextOrder) && id !in old(db.orders) && db.nextOrder == id + 1
    ensures db.orders == old(db.orders)[id := o]
    ensures db.tables == SetTableStatus(old(db.tables), mesa, Ocupada)
  {
    id := db.nextOrder;
    SetTableStatusKeepsNumeros(db.tables, mesa, Ocupada);
    var tables := if TruthyInt(mesa) then SetTableStatus(db.tables, mesa, Ocupada) else db.tables;
    db.orders, db.nextOrder, db.tables := db.orders[id := o], id + 1, tables;
  }

  // ---------------------------------------------------------------- items

  /**
   * The quantity `quantidade < 1` compares, after the `quantidade = 1`
   * destructuring default: 1 when the field is left out, the number sent, and
   * 0 for a null (a relational comparison reads null as 0), so a null
   * quantity is refused rather than defaulted.
   */
  function QtyOrOne(quantidade: Field<int>): (q: int)
    ensures quantidade.Undefined? ==> q == 1
    ensures quantidade == Defined(None) ==> q == 0
    ensures quantidade.Defined? && quantidade.value.Some? ==> q == quantidade.value.value
  {
    match quantidade
    case Undefined => 1
    case Defined(None) => 0
    case Defined(Some(n)) => n
  }

  /**
   * The checks of POST /api/pedidos/:id/itens, in the route's order, all
   * made before any write: a truthy product id (400), a quantity of at least
   * 1 (400), a known product (404), enough stock when the product is tracked
   * (400, reporting the stock). `None` means the item is accepted.
   */
  function CheckAddItem(products: map<int, Product>, produto: Option<int>, quantidade: Field<int>): (e: Option<OrderError>)
    ensures e == Some(MissingProduct) <==> !TruthyInt(produto)
    ensures e == Some(BadQuantity) <==> TruthyInt(produto) && QtyOrOne(quantidade) < 1
    ensures e == Some(ProductNotFound) <==>
      TruthyInt(produto) && QtyOrOne(quantidade) >= 1 && produto.value !in products
    ensures (e.Some? && e.value.InsufficientStock?) <==>
      TruthyInt(produto) && QtyOrOne(quantidade) >= 1 && produto.value in products
      && !CanReserve(products[produto.value], QtyOrOne(quantidade))
    ensures e.Some? && e.value.InsufficientStock? ==> Some(e.value.disponivel) == products[produto.value].estoque
    ensures e.None? <==>
      TruthyInt(produto) && QtyOrOne(quantidade) >= 1 && produto.value in products
      && CanReserve(products[produto.value], QtyOrOne(quantidade))
  {
    if !TruthyInt(produto) then Some(MissingProduct)
    else if QtyOrOne(quantidade) < 1 then Some(BadQuantity)
    else if produto.value !in products then Some(ProductNotFound)
    else
      var p := products[produto.value];
      if p.estoque.Some? && p.estoque.value < QtyOrOne(quantidade) then Some(InsufficientStock(p.estoque.value))
      else None
  }

  /** A quantity sent as null is refused with 400, while one left out is read as 1. */
  lemma NullQuantityRefused(products: map<int, Product>, produto: Option<int>)
    requires TruthyInt(produto)
    ensures CheckAddItem(products, produto, Defined(None)) == Some(BadQuantity)
    ensures CheckAddItem(products, produto, Undefined) == CheckAddItem(products, produto, Defined(Some(1)))
  {
  }

  /** Appending a row that takes the next id keeps the id rules with the counter moved on. */
  lemma AppendKeepsIds(items: seq<Item>, next: int, it: Item)
    requires ItemIdsValid(items, next) && it.id == next
    ensures ItemIdsValid(items + [it], next + 1)
  {
  }

  /**
   * POST /api/pedidos/:id/itens. When `CheckAddItem` refuses, nothing
   * changes. Otherwise the stock drops by the quantity, the item row is
   * inserted with the product's name and price and status `pendente`, the
   * totals are recomputed and an `aberto` order moves to `producao`.
   */
  method AddItem(db: Database, dep: Deployment, oid: int, produto: Option<int>, quantidade: Field<int>,
                 observacao: Option<string>)
    returns (r: Result<Item, OrderError>)
    requires db.Valid()
    modifies db`products, db`items, db`nextItem, db`orders
    ensures db.Valid()
    ensures r.Err? <==> CheckAddItem(old(db.products), produto, quantidade).Some?
    ensures r.Err? ==> Some(r.error) == CheckAddItem(old(db.products), produto, quantidade) && unchanged(db)
    ensures r.Ok? ==>
      (var q := QtyOrOne(quantidade);
       var p := old(db.products)[produto.value];
       r.value == Item(old(db.nextItem), oid, produto, p.nome, q, p.preco, p.preco * q,
                       StoredText(dep, observacao), Pendente)
       && db.nextItem == old(db.nextItem) + 1
       && db.items == old(db.items) + [r.value]
       && db.products == Debit(old(db.products), produto.value, q)
       && db.orders == StartProduction(Recalc(old(db.orders), db.items, oid), oid))
  {
    var e := CheckAddItem(db.products, produto, quantidade);
    if e.Some? {
      return Err(e.value);
    }
    var q := QtyOrOne(quantidade);
    var p := db.products[produto.value];
    var it := InsertItem(db, oid, produto.value, q, StoredText(dep, observacao));
    return Ok(it);
  }

  /** The writes of the add-item route once its checks pass. */
  method InsertItem(db: Database, oid: int, pid: int, q: int, observacao: Option<string>) returns (it: Item)
    requires db.Valid() && pid in db.products
    modifies db`products, db`items, db`nextItem, db`orders
    ensures db.Valid()
    ensures var p := old(db.products)[pid];
      it == Item(old(db.nextItem), oid, Some(pid), p.nome, q, p.preco, p.preco * q, observacao, Pendente)
    ensures db.nextItem == old(db.nextItem) + 1
    ensures db.items == old(db.items) + [it]
    ensures db.products == Debit(old(db.products), pid, q)
    ensures db.orders == StartProduction(Recalc(old(db.orders), db.items, oid), oid)
  {
    var p := db.products[pid];
    var products := if p.estoque.Some? then Debit(db.products, pid, q) else db.products;
    it := Item(db.nextItem, oid, Some(pid), p.nome, q, p.preco, p.preco * q, observacao, Pendente);
    AppendKeepsIds(db.items, db.nextItem, it);
    var items := db.items + [it];
    var orders := StartProduction(Recalc(db.orders, items, oid), oid);
    db.products, db.items, db.nextItem, db.orders := products, items, db.nextItem + 1, orders;
  }

  /** The kitchen statuses as the routes spell them. */
  function ItemStatusName(s: ItemStatus): string {
    match s
    case Pendente => "pendente"
    case Preparando => "preparando"
    case ItemPronto => "pronto"
    case Entregue => "entregue"
    case ItemCancelado => "cancelado"
  }

  /** The `includes(status)` check: accepts exactly the five names. */
  function ParseItemStatus(s: Option<string>): (r: Option<ItemStatus>)
    ensures r.Some? ==> s == Some(ItemStatusName(r.value))
    ensures r.None? ==> forall st: ItemStatus :: s != Some(ItemStatusName(st))
  {
    if s == Some("pendente") then Some(Pendente)
    else if s == Some("preparando") then Some(Preparando)
    else if s == Some("pronto") then Some(ItemPronto)
    else if s == Some("entregue") then Some(Entregue)
    else if s == Some("cancelado") then Some(ItemCancelado)
    else None
  }

  /** Changing a row's status keeps every row's id, so the id rules still hold. */
  lemma SetRowStatusKeepsIds(items: seq<Item>, itemId: int, oid: int, s: ItemStatus, next: int)
    requires ItemIdsValid(items, next)
    ensures ItemIdsValid(SetRowStatus(items, itemId, oid, s), next)
  {
    var r := SetRowStatus(items, itemId, oid, s);
    SetRowStatusSpec(items, itemId, oid, s);
    assert forall i :: 0 <= i < |r| ==> r[i].id == items[i].id;
  }

  /**
   * PUT /api/pedidos/:id/itens/:itemId/status. An unknown status is refused
   * (400) and an unknown row gives 404, with nothing changed. Otherwise the
   * row takes the status; a cancellation first gives the row's quantity back
   * to its product (whatever the row's previous status was); and when no row
   * of the order is left outside `pronto`/`entregue`/`cancelado` the order
   * becomes `pronto`, whatever its own status. Totals are not recomputed.
   */
  method SetItemStatus(db: Database, oid: int, itemId: int, status: Option<string>)
    returns (r: Result<Item, OrderError>)
    requires db.Valid()
    modifies db`products, db`items, db`orders
    ensures db.Valid()
    ensures r == Err(InvalidStatus) <==> ParseItemStatus(status).None?
    ensures r == Err(ItemNotFound) <==>
      ParseItemStatus(status).Some? && FindRow(old(db.items), itemId, oid).None?
    ensures r.Err? ==> unchanged(db)
    ensures r.Ok? ==>
      (var s := ParseItemStatus(status).value;
       var row := FindRow(old(db.items), itemId, oid).value;
       ParseItemStatus(status).Some? && FindRow(old(db.items), itemId, oid).Some?
       && r.value == row.(status := s)
       && db.items == SetRowStatus(old(db.items), itemId, oid, s)
       && db.products == (if s == ItemCancelado then Credit(old(db.products), row.produto, row.quantidade)
                          else old(db.products))
       && db.orders == (if PendingCount(db.items, oid) == 0 then SetOrderStatus(old(db.orders), oid, Pronto)
                        else old(db.orders)))
  {
    var parsed := ParseItemStatus(status);
    if parsed.None? {
      return Err(InvalidStatus);
    }
    var s := parsed.value;
    var row := FindRow(db.items, itemId, oid);
    if row.None? {
      return Err(ItemNotFound);
    }
    WriteItemStatus(db, oid, itemId, s, row.value);
    return Ok(row.value.(status := s));
  }

  /** The writes of the item-status route once its checks pass. */
  method WriteItemStatus(db: Database, oid: int, itemId: int, s: ItemStatus, row: Item)
    requires db.Valid()
    modifies db`products, db`items, db`orders
    ensures db.Valid()
    ensures db.items == SetRowStatus(old(db.items), itemId, oid, s)
    ensures db.products == (if s == ItemCancelado then Credit(old(db.products), row.produto, row.quantidade)
                            else old(db.products))
    ensures db.orders == (if PendingCount(db.items, oid) == 0 then SetOrderStatus(old(db.orders), oid, Pronto)
                          else old(db.orders))
  {
    var products := if s == ItemCancelado then Credit(db.products, row.produto, row.quantidade) else db.products;
    SetRowStatusKeepsIds(db.items, itemId, oid, s, db.nextItem);
    var items := SetRowStatus(db.items, itemId, oid, s);
    var orders := if PendingCount(items, oid) == 0 then SetOrderStatus(db.orders, oid, Pronto) else db.orders;
    assert products.Keys == db.products.Keys && orders.Keys == db.orders.Keys;
    assert KeysBelow(products, db.nextProduct) && KeysBelow(orders, db.nextOrder);
    SameOrderIds(db.payments, db.nextPayment, db.orders, orders);
    db.products, db.items, db.orders := products, items, orders;
  }

  /** Deleting rows keeps the survivors' ids within any bounds the rows' ids had. */
  lemma {:induction false} RemoveRowsWithin(items: seq<Item>, itemId: int, oid: int, lo: int, hi: int)
    requires IdsWithin(items, lo, hi)
    ensures IdsWithin(RemoveRows(items, itemId, oid), lo, hi)
  {
    if items != [] {
      RemoveRowsWithin(items[..|items| - 1], itemId, oid, lo, hi);
    }
  }

  /** Deleting rows keeps the survivors' ids below the counter and increasing. */
  lemma {:induction false} RemoveRowsKeepsIds(items: seq<Item>, itemId: int, oid: int, next: int)
    requires ItemIdsValid(items, next)
    ensures ItemIdsValid(RemoveRows(items, itemId, oid), next)
  {
    RemoveRowsWithin(items, itemId, oid, 1, next);
    if items != [] {
      var init := items[..|items| - 1];
      var last := items[|items| - 1];
      RemoveRowsKeepsIds(init, itemId, oid, next);
      RemoveRowsWithin(init, itemId, oid, 1, last.id);
    }
  }

  /**
   * DELETE /api/pedidos/:id/itens/:itemId. An unknown row gives 404 with
   * nothing changed. Otherwise the row is deleted, its quantity goes back to
   * a tracked product (even when the row was already cancelled and had given
   * it back once), and the order's totals are recomputed.
   */
  method RemoveItem(db: Database, oid: int, itemId: int) returns (r: Result<Item, OrderError>)
    requires db.Valid()
    modifies db`products, db`items, db`orders
    ensures db.Valid()
    ensures r == Err(ItemNotFound) <==> FindRow(old(db.items), itemId, oid).None?
    ensures r.Err? ==> r == Err(ItemNotFound) && unchanged(db)
    ensures r.Ok? ==>
      (FindRow(old(db.items), itemId, oid) == Some(r.value)
       && db.items == RemoveRows(old(db.items), itemId, oid)
       && db.products == Credit(old(db.products), r.value.produto, r.value.quantidade)
       && db.orders == Recalc(old(db.orders), db.items, oid))
  {
    var row := FindRow(db.items, itemId, oid);
    if row.None? {
      return Err(ItemNotFound);
    }
    RemoveRowsKeepsIds(db.items, itemId, oid, db.nextItem);
    var items := RemoveRows(db.items, itemId, oid);
    var products := if TruthyInt(row.value.produto) then Credit(db.products, row.value.produto, row.value.quantidade)
                    else db.products;
    db.items, db.products, db.orders := items, products, Recalc(db.orders, items, oid);
    return Ok(row.value);
  }

  /**
   * Adding an item and then removing the row just added leaves the item
   * table and the product table (every stock figure included) as they were.
   */
  method AddThenRemove(db: Database, dep: Deployment, oid: int, produto: Option<int>, quantidade: Field<int>,
                       observacao: Option<string>)
    returns (added: Result<Item, OrderError>, removed: Result<Item, OrderError>)
    requires db.Valid()
    modifies db`products, db`items, db`nextItem, db`orders
    ensures added.Ok? ==> removed == added && db.products == old(db.products) && db.items == old(db.items)
  {
    added := AddItem(db, dep, oid, produto, quantidade, observacao);
    if added.Err? {
      removed := added;
      return;
    }
    ghost var items0 := old(db.items);
    ghost var products0 := old(db.products);
    assert db.items == items0 + [added.value];
    assert forall i :: 0 <= i < |items0| ==> items0[i].id != added.value.id;
    removed := RemoveItem(db, oid, added.value.id);
    assert FindRow(items0 + [added.value], added.value.id, oid) == Some(added.value) by {
      FindRowAfterAbsent(items0, added.value, oid);
    }
    RemoveAbsentRow(items0, added.value.id, oid);
    assert (items0 + [added.value])[..|items0|] == items0;
    CreditUndoesDebit(products0, produto.value, added.value.quantidade);
  }

  /** Searching for a row appended after rows with other ids finds the appended row. */
  lemma {:induction false} FindRowAfterAbsent(items: seq<Item>, it: Item, oid: int)
    requires it.pedido == oid
    requires forall i :: 0 <= i < |items| ==> items[i].id != it.id
    ensures FindRow(items + [it], it.id, oid) == Some(it)
  {
    if items != [] {
      assert (items + [it])[1..] == items[1..] + [it];
      FindRowAfterAbsent(items[1..], it, oid);
    }
  }

  // ---------------------------------------------------------------- closing and cancelling

  /**
   * PUT /api/pedidos/:id/fechar. An unknown order gives 404; payments
   * summing to less than the order's total give 400; either way nothing
   * changes. Otherwise the order becomes `pago` with the closing time, and
   * its table (if any) becomes `livre`. The order's current status is not
   * checked.
   */
  method CloseOrder(db: Database, oid: int, now: int) returns (r: Result<Order, OrderError>)
    requires db.Valid()
    modifies db`orders, db`tables
    ensures db.Valid()
    ensures r == Err(OrderNotFound) <==> oid !in old(db.orders)
    ensures r == Err(PaymentIncomplete) <==>
      oid in old(db.orders) && PaidTotal(db.payments, oid) < old(db.orders)[oid].total
    ensures r.Err? ==> r.error == OrderNotFound || r.error == PaymentIncomplete
    ensures r.Err? ==> unchanged(db)
    ensures r.Ok? ==>
      (oid in old(db.orders) && PaidTotal(db.payments, oid) >= old(db.orders)[oid].total
       && r.value == old(db.orders)[oid].(status := Pago, closedAt := Some(now))
       && db.orders == old(db.orders)[oid := r.value]
       && db.tables == SetTableStatus(old(db.tables), old(db.orders)[oid].mesa, Livre))
  {
    var paid := PaidTotal(db.payments, oid);
    if oid !in db.orders {
      return Err(OrderNotFound);
    }
    var o := db.orders[oid];
    if paid < o.total {
      return Err(PaymentIncomplete);
    }
    var closed := o.(status := Pago, closedAt := Some(now));
    SetTableStatusKeepsNumeros(db.tables, o.mesa, Livre);
    var tables := if TruthyInt(o.mesa) then SetTableStatus(db.tables, o.mesa, Livre) else db.tables;
    db.orders, db.tables := db.orders[oid := closed], tables;
    return Ok(closed);
  }

  /**
   * The stock loop of both cancel handlers: every row of the order that is
   * not cancelled gives its quantity back to its product, when the row names
   * one and the product is tracked.
   */
  method ReturnStock(db: Database, oid: int)
    requires db.ProductsValid()
    modifies db`products
    ensures db.ProductsValid()
    ensures db.products == CreditRows(old(db.products), LiveRowsOf(db.items, oid))
  {
    var rows := LiveRowsOf(db.items, oid);
    var i := 0;
    while i < |rows|
      invariant 0 <= i <= |rows|
      invariant db.products == CreditRows(old(db.products), rows[..i])
    {
      CreditRowsStep(old(db.products), rows, i);
      if TruthyInt(rows[i].produto) {
        db.products := Credit(db.products, rows[i].produto, rows[i].quantidade);
      }
      i := i + 1;
    }
    assert rows[..|rows|] == rows;
    CreditRowsStock(old(db.products), rows);
  }

  /** One more turn of the stock loop credits one more row; a row without a product credits nothing. */
  lemma CreditRowsStep(products: map<int, Product>, rows: seq<Item>, i: int)
    requires 0 <= i < |rows|
    ensures CreditRows(products, rows[..i + 1]) == Credit(CreditRows(products, rows[..i]), rows[i].produto, rows[i].quantidade)
    ensures !TruthyInt(rows[i].produto) ==> CreditRows(products, rows[..i + 1]) == CreditRows(products, rows[..i])
  {
    assert rows[..i + 1][..i] == rows[..i];
  }

  /**
   * What both cancel handlers do once their checks pass: return the stock of
   * the live rows, mark the order `cancelado` with the new note and the
   * closing time, and free its table. Item rows keep their statuses.
   */
  method ApplyCancel(db: Database, oid: int, note: string, now: int) returns (o: Order)
    requires db.Valid() && oid in db.orders
    modifies db`products, db`orders, db`tables
    ensures db.Valid()
    ensures o == old(db.orders)[oid].(status := Cancelado, observacao := Some(note), closedAt := Some(now))
    ensures db.orders == old(db.orders)[oid := o]
    ensures db.tables == SetTableStatus(old(db.tables), old(db.orders)[oid].mesa, Livre)
    ensures db.products == CreditRows(old(db.products), LiveRowsOf(db.items, oid))
  {
    ReturnStock(db, oid);
    o := MarkCancelled(db, oid, note, now);
  }

  /** The order and table writes of a cancellation. */
  method MarkCancelled(db: Database, oid: int, note: string, now: int) returns (o: Order)
    requires db.Valid() && oid in db.orders
    modifies db`orders, db`tables
    ensures db.Valid()
    ensures o == old(db.orders)[oid].(status := Cancelado, observacao := Some(note), closedAt := Some(now))
    ensures db.orders == old(db.orders)[oid := o]
    ensures db.tables == SetTableStatus(old(db.tables), old(db.orders)[oid].mesa, Livre)
  {
    var before := db.orders[oid];
    o := before.(status := Cancelado, observacao := Some(note), closedAt := Some(now));
    SetTableStatusKeepsNumeros(db.tables, before.mesa, Livre);
    var tables := if TruthyInt(before.mesa) then SetTableStatus(db.tables, before.mesa, Livre) else db.tables;
    db.orders, db.tables := db.orders[oid := o], tables;
  }

  /**
   * PUT /api/pedidos/:id/cancelar on Express. An unknown order gives 404 and
   * a paid one 400, with nothing changed; any other status, `cancelado`
   * included, is cancelled (again), and the note gets
   * `CANCELADO: <reason>` after the previous note.
   */
  method CancelOrderBackend(db: Database, oid: int, motivo: Option<string>, now: int)
    returns (r: Result<Order, OrderError>)
    requires db.Valid()
    modifies db`products, db`orders, db`tables
    ensures db.Valid()
    ensures r == Err(OrderNotFound) <==> oid !in old(db.orders)
    ensures r == Err(AlreadyPaid) <==> oid in old(db.orders) && old(db.orders)[oid].status == Pago
    ensures r.Err? ==> unchanged(db)
    ensures r.Ok? ==>
      (oid in old(db.orders) && old(db.orders)[oid].status != Pago
       && r.value == old(db.orders)[oid].(status := Cancelado, closedAt := Some(now),
                       observacao := Some(BackendCancelNote(old(db.orders)[oid].observacao, motivo)))
       && db.orders == old(db.orders)[oid := r.value]
       && db.tables == SetTableStatus(old(db.tables), old(db.orders)[oid].mesa, Livre)
       && db.products == CreditRows(old(db.products), LiveRowsOf(db.items, oid)))
  {
    if oid !in db.orders {
      return Err(OrderNotFound);
    }
    if db.orders[oid].status == Pago {
      return Err(AlreadyPaid);
    }
    var o := ApplyCancel(db, oid, BackendCancelNote(db.orders[oid].observacao, motivo), now);
    return Ok(o);
  }

  /** The Workers cancel route's access checks, in order, before the order is read. */
  predicate SupervisorChecked(db: Database, actor: Option<Actor>, senha: Option<string>,
                              passwordOk: (string, string) -> bool)
    reads db`users
  {
    RoleAllowed(actor, ["admin", "gerente"]) && TruthyStr(senha)
    && actor.value.id in db.users && db.users[actor.value.id].ativo == Some(true)
    && passwordOk(senha.value, db.users[actor.value.id].senhaHash)
  }

  /**
   * PUT /api/pedidos/:id/cancelar on Workers. The caller must be `admin` or
   * `gerente` (403), send a password (400), still be an active user (404)
   * and give the right password (403); only then are the order checks of the
   * Express route applied. The note reads `CANCELADO por <name>: <reason>`,
   * after ` | ` when a previous note is non-empty.
   */
  method CancelOrderCloudflare(db: Database, actor: Option<Actor>, oid: int, motivo: Option<string>,
                               senha: Option<string>, now: int, passwordOk: (string, string) -> bool)
    returns (r: Result<Order, OrderError>)
    requires db.Valid()
    modifies db`products, db`orders, db`tables
    ensures db.Valid()
    ensures r == Err(NotSupervisor) <==> !RoleAllowed(actor, ["admin", "gerente"])
    ensures r == Err(MissingPassword) <==> RoleAllowed(actor, ["admin", "gerente"]) && !TruthyStr(senha)
    ensures r == Err(SupervisorNotFound) <==>
      RoleAllowed(actor, ["admin", "gerente"]) && TruthyStr(senha)
      && !(actor.value.id in db.users && db.users[actor.value.id].ativo == Some(true))
    ensures r == Err(WrongSupervisorPassword) <==>
      RoleAllowed(actor, ["admin", "gerente"]) && TruthyStr(senha)
      && actor.value.id in db.users && db.users[actor.value.id].ativo == Some(true)
      && !passwordOk(senha.value, db.users[actor.value.id].senhaHash)
    ensures r == Err(OrderNotFound) <==> SupervisorChecked(db, actor, senha, passwordOk) && oid !in old(db.orders)
    ensures r == Err(AlreadyPaid) <==>
      SupervisorChecked(db, actor, senha, passwordOk) && oid in old(db.orders) && old(db.orders)[oid].status == Pago
    ensures r.Err? ==> unchanged(db)
    ensures r.Ok? ==>
      (SupervisorChecked(db, actor, senha, passwordOk)
       && oid in old(db.orders) && old(db.orders)[oid].status != Pago
       && r.value == old(db.orders)[oid].(status := Cancelado, closedAt := Some(now),
          observacao := Some(CloudflareCancelNote(old(db.orders)[oid].observacao, actor.value.nome, motivo)))
       && db.orders == old(db.orders)[oid := r.value]
       && db.tables == SetTableStatus(old(db.tables), old(db.orders)[oid].mesa, Livre)
       && db.products == CreditRows(old(db.products), LiveRowsOf(db.items, oid)))
  {
    if !RoleAllowed(actor, ["admin", "gerente"]) {
      return Err(NotSupervisor);
    }
    if !TruthyStr(senha) {
      return Err(MissingPassword);
    }
    var uid := actor.value.id;
    if !(uid in db.users && db.users[uid].ativo == Some(true)) {
      return Err(SupervisorNotFound);
    }
    if !passwordOk(senha.value, db.users[uid].senhaHash) {
      return Err(WrongSupervisorPassword);
    }
    if oid !in db.orders {
      return Err(OrderNotFound);
    }
    if db.orders[oid].status == Pago {
      return Err(AlreadyPaid);
    }
    var note := CloudflareCancelNote(db.orders[oid].observacao, actor.value.nome, motivo);
    var o := ApplyCancel(db, oid, note, now);
    return Ok(o);
  }
}
