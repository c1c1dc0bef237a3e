/**
 * Pure definitions behind the order and payment handlers: how stock is taken
 * and given back, how an order's totals are recomputed (`recalcularPedido`),
 * when an order's items are all done, how much has been paid, the payment
 * result envelope, and the notes a cancellation appends. The handler methods
 * state their effect through these functions; the lemmas here say what the
 * functions mean.
 */
module Ledger {
  import opened Common
  import opened Schema

  // ---------------------------------------------------------------- stock

  /** Whether an item quantity can be taken from a product: untracked stock never blocks. */
  predicate CanReserve(p: Product, q: int) {
    p.estoque.None? || p.estoque.value >= q
  }

  /** Only the stock field differs between two product rows. */
  predicate SameButStock(a: Product, b: Product) {
    a.(estoque := None) == b.(estoque := None)
  }

  /** `UPDATE produtos SET estoque_quantidade = estoque_quantidade - q WHERE id = pid`; null stays null. */
  function Debit(products: map<int, Product>, pid: int, q: int): (r: map<int, Product>)
    requires pid in products
    ensures r.Keys == products.Keys
    ensures SameButStock(r[pid], products[pid])
    ensures r[pid].estoque.Some? == products[pid].estoque.Some?
    ensures r[pid].estoque.Some? ==> r[pid].estoque.value == products[pid].estoque.value - q
  {
    var p := products[pid];
    if p.estoque.Some? then products[pid := p.(estoque := Some(p.estoque.value - q))] else products
  }

  /** Taking stock from one product leaves every other product row as it was. */
  lemma DebitOthers(products: map<int, Product>, pid: int, q: int)
    requires pid in products
    ensures forall k :: k in products && k != pid ==> Debit(products, pid, q)[k] == products[k]
  {
  }

  /**
   * Giving stock back for an item row: guarded by `if (produto_id)` and by
   * `WHERE id = ? AND estoque_quantidade IS NOT NULL`, so a missing product
   * reference, an unknown product or an untracked product changes nothing.
   */
  function Credit(products: map<int, Product>, pid: Option<int>, q: int): (r: map<int, Product>)
    ensures r.Keys == products.Keys
    ensures !TruthyInt(pid) ==> r == products
  {
    if TruthyInt(pid) && pid.value in products && products[pid.value].estoque.Some? then
      var p := products[pid.value];
      products[pid.value := p.(estoque := Some(p.estoque.value + q))]
    else products
  }

  /**
   * Crediting changes nothing but stock: a tracked product named by a
   * non-zero id gains the quantity, every other product keeps its stock, and
   * an untracked product stays untracked.
   */
  lemma CreditSpec(products: map<int, Product>, pid: Option<int>, q: int)
    ensures forall k :: k in products ==> SameButStock(Credit(products, pid, q)[k], products[k])
    ensures forall k :: k in products ==>
      Credit(products, pid, q)[k].estoque ==
        if products[k].estoque.Some?
        then Some(products[k].estoque.value + (if pid == Some(k) && k != 0 then q else 0))
        else None
  {
  }

  /** Giving back what was just taken restores the product table exactly. */
  lemma CreditUndoesDebit(products: map<int, Product>, pid: int, q: int)
    requires pid in products && pid != 0
    ensures Credit(Debit(products, pid, q), Some(pid), q) == products
  {
    var after := Credit(Debit(products, pid, q), Some(pid), q);
    DebitOthers(products, pid, q);
    CreditSpec(Debit(products, pid, q), Some(pid), q);
    assert forall k :: k in after ==> after[k] == products[k];
  }

  /**
   * Giving back `q` units of a product and then taking `q2` changes only
   * that product, and only a tracked one, by `q - q2`.
   */
  lemma CreditThenDebit(products: map<int, Product>, pid: int, q: int, q2: int)
    requires pid in products && pid != 0
    ensures Debit(Credit(products, Some(pid), q), pid, q2).Keys == products.Keys
    ensures forall k :: k in products ==>
      Debit(Credit(products, Some(pid), q), pid, q2)[k] ==
        if k == pid && products[k].estoque.Some? then products[k].(estoque := Some(products[k].estoque.value + q - q2))
        else products[k]
  {
    var c := Credit(products, Some(pid), q);
    DebitOthers(c, pid, q2);
  }

  /** The units of product `k` held by a list of item rows. */
  function QtyFor(rows: seq<Item>, k: int): int {
    if rows == [] then 0
    else QtyFor(rows[..|rows| - 1], k) + (if rows[|rows| - 1].produto == Some(k) then rows[|rows| - 1].quantidade else 0)
  }

  /** Crediting each row in turn, as the cancel handler's loop does. */
  function CreditRows(products: map<int, Product>, rows: seq<Item>): (r: map<int, Product>)
    ensures r.Keys == products.Keys
  {
    if rows == [] then products
    else
      var last := rows[|rows| - 1];
      Credit(CreditRows(products, rows[..|rows| - 1]), last.produto, last.quantidade)
  }

  /**
   * After crediting a list of rows, each tracked product holds its old stock
   * plus every unit the rows hold of it; untracked products stay untracked and
   * nothing else about any product changes.
   */
  lemma CreditRowsStock(products: map<int, Product>, rows: seq<Item>)
    requires 0 !in products
    ensures CreditRows(products, rows).Keys == products.Keys
    ensures forall k :: k in products ==> SameButStock(CreditRows(products, rows)[k], products[k])
    ensures forall k :: k in products ==>
      CreditRows(products, rows)[k].estoque ==
        if products[k].estoque.Some? then Some(products[k].estoque.value + QtyFor(rows, k)) else None
  {
    forall k | k in products
      ensures SameButStock(CreditRows(products, rows)[k], products[k])
      ensures CreditRows(products, rows)[k].estoque ==
        if products[k].estoque.Some? then Some(products[k].estoque.value + QtyFor(rows, k)) else None
    {
      CreditRowsAt(products, rows, k);
    }
  }

  /** The crediting loop, followed for one product. */
  lemma {:induction false} CreditRowsAt(products: map<int, Product>, rows: seq<Item>, k: int)
    requires k in products && k != 0
    ensures SameButStock(CreditRows(products, rows)[k], products[k])
    ensures CreditRows(products, rows)[k].estoque ==
      if products[k].estoque.Some? then Some(products[k].estoque.value + QtyFor(rows, k)) else None
    decreases |rows|
  {
    if rows != [] {
      var init, last := rows[..|rows| - 1], rows[|rows| - 1];
      CreditRowsAt(products, init, k);
      var mid := CreditRows(products, init);
      assert CreditRows(products, rows) == Credit(mid, last.produto, last.quantidade);
      assert QtyFor(rows, k) == QtyFor(init, k) + (if last.produto == Some(k) then last.quantidade else 0);
    }
  }

  // ---------------------------------------------------------------- order totals

  /** What one row adds to an order's subtotal: nothing unless it belongs to the order and is not cancelled. */
  function Contribution(it: Item, oid: int): int {
    if it.pedido == oid && it.status != ItemCancelado then it.subtotal else 0
  }

  /** `SELECT COALESCE(SUM(subtotal), 0) FROM itens_pedido WHERE pedido_id = ? AND status != 'cancelado'`. */
  function LiveSubtotal(items: seq<Item>, oid: int): int {
    if items == [] then 0 else LiveSubtotal(items[..|items| - 1], oid) + Contribution(items[|items| - 1], oid)
  }

  /** An order whose subtotal is its live items' sum and whose total adds the fee and subtracts the discount. */
  predicate TotalsConsistent(o: Order, items: seq<Item>, oid: int) {
    o.subtotal == LiveSubtotal(items, oid) && o.total == o.subtotal + o.taxaServico - o.desconto
  }

  /** Only subtotal and total differ between two order rows. */
  predicate SameButTotals(a: Order, b: Order) {
    a.(subtotal := 0, total := 0) == b.(subtotal := 0, total := 0)
  }

  /** `recalcularPedido`: rewrites subtotal and total of one order; a missing order is left missing. */
  function Recalc(orders: map<int, Order>, items: seq<Item>, oid: int): (r: map<int, Order>)
    ensures r.Keys == orders.Keys
    ensures oid in r ==> TotalsConsistent(r[oid], items, oid) && SameButTotals(r[oid], orders[oid])
  {
    if oid in orders then
      var o := orders[oid];
      var s := LiveSubtotal(items, oid);
      orders[oid := o.(subtotal := s, total := s + o.taxaServico - o.desconto)]
    else orders
  }

  /** Recomputing one order's totals leaves every other order row as it was. */
  lemma RecalcOthers(orders: map<int, Order>, items: seq<Item>, oid: int)
    ensures forall k :: k in orders && k != oid ==> Recalc(orders, items, oid)[k] == orders[k]
  {
  }

  /** A second recomputation overrides the first: the totals depend only on the final item rows. */
  lemma RecalcTwice(orders: map<int, Order>, first: seq<Item>, items: seq<Item>, oid: int)
    ensures Recalc(Recalc(orders, first, oid), items, oid) == Recalc(orders, items, oid)
  {
  }

  /** `UPDATE pedidos SET status = 'producao' WHERE id = ? AND status = 'aberto'`. */
  function StartProduction(orders: map<int, Order>, oid: int): (r: map<int, Order>)
    ensures r.Keys == orders.Keys
    ensures oid in r ==> r[oid] == orders[oid].(status := r[oid].status)
    ensures oid in r ==> r[oid].status == if orders[oid].status == Aberto then Producao else orders[oid].status
  {
    if oid in orders && orders[oid].status == Aberto then orders[oid := orders[oid].(status := Producao)] else orders
  }

  /** `UPDATE pedidos SET status = s WHERE id = ?` with no other condition. */
  function SetOrderStatus(orders: map<int, Order>, oid: int, s: OrderStatus): (r: map<int, Order>)
    ensures r.Keys == orders.Keys
    ensures oid in r ==> r[oid] == orders[oid].(status := s)
  {
    if oid in orders then orders[oid := orders[oid].(status := s)] else orders
  }

  /** Both status updates leave every other order row as it was. */
  lemma StatusUpdatesOthers(orders: map<int, Order>, oid: int, s: OrderStatus)
    ensures forall k :: k in orders && k != oid ==> StartProduction(orders, oid)[k] == orders[k]
    ensures forall k :: k in orders && k != oid ==> SetOrderStatus(orders, oid, s)[k] == orders[k]
  {
  }

  /** `if (mesa_id) UPDATE mesas SET status = s WHERE id = mesa_id`. */
  function SetTableStatus(tables: map<int, Table>, mesa: Option<int>, s: TableStatus): (r: map<int, Table>)
    ensures r.Keys == tables.Keys
    ensures !TruthyInt(mesa) ==> r == tables
  {
    if TruthyInt(mesa) && mesa.value in tables then tables[mesa.value := tables[mesa.value].(status := s)] else tables
  }

  /** Only the named table's status changes. */
  lemma SetTableStatusSpec(tables: map<int, Table>, mesa: Option<int>, s: TableStatus)
    ensures forall k :: k in tables && mesa != Some(k) ==> SetTableStatus(tables, mesa, s)[k] == tables[k]
    ensures forall k :: k in tables && mesa == Some(k) && k != 0 ==> SetTableStatus(tables, mesa, s)[k] == tables[k].(status := s)
  {
  }

  /** Table numbers are kept, and so is their uniqueness. */
  lemma SetTableStatusKeepsNumeros(tables: map<int, Table>, mesa: Option<int>, s: TableStatus)
    requires UniqueNumeros(tables)
    ensures UniqueNumeros(SetTableStatus(tables, mesa, s))
  {
    var r := SetTableStatus(tables, mesa, s);
    assert forall k :: k in r ==> r[k].numero == tables[k].numero;
  }

  // ---------------------------------------------------------------- item rows

  predicate RowMatches(it: Item, itemId: int, oid: int) {
    it.id == itemId && it.pedido == oid
  }

  /** `SELECT … FROM itens_pedido WHERE id = ? AND pedido_id = ?`, first row. */
  function FindRow(items: seq<Item>, itemId: int, oid: int): Option<Item> {
    if items == [] then None
    else if RowMatches(items[0], itemId, oid) then Some(items[0])
    else FindRow(items[1..], itemId, oid)
  }

  /** The search finds a matching row exactly when there is one, and then the first. */
  lemma {:induction false} FindRowSpec(items: seq<Item>, itemId: int, oid: int)
    ensures FindRow(items, itemId, oid).None? <==> forall i :: 0 <= i < |items| ==> !RowMatches(items[i], itemId, oid)
    ensures FindRow(items, itemId, oid).Some? ==>
      exists i :: 0 <= i < |items| && items[i] == FindRow(items, itemId, oid).value
        && RowMatches(items[i], itemId, oid) && forall j :: 0 <= j < i ==> !RowMatches(items[j], itemId, oid)
  {
    if items != [] && !RowMatches(items[0], itemId, oid) {
      FindRowSpec(items[1..], itemId, oid);
      if FindRow(items, itemId, oid).Some? {
        var i :| 0 <= i < |items[1..]| && items[1..][i] == FindRow(items, itemId, oid).value
          && RowMatches(items[1..][i], itemId, oid) && forall j :: 0 <= j < i ==> !RowMatches(items[1..][j], itemId, oid);
        assert items[i + 1] == items[1..][i];
      }
    }
  }

  /** `DELETE FROM itens_pedido WHERE id = ? AND pedido_id = ?`. */
  function RemoveRows(items: seq<Item>, itemId: int, oid: int): (r: seq<Item>)
    ensures |r| <= |items|
  {
    if items == [] then []
    else
      var last := items[|items| - 1];
      RemoveRows(items[..|items| - 1], itemId, oid) + (if RowMatches(last, itemId, oid) then [] else [last])
  }

  /** Removing a row that is not there changes nothing. */
  lemma {:induction false} RemoveAbsentRow(items: seq<Item>, itemId: int, oid: int)
    requires forall i :: 0 <= i < |items| ==> items[i].id != itemId
    ensures RemoveRows(items, itemId, oid) == items
  {
    if items != [] {
      RemoveAbsentRow(items[..|items| - 1], itemId, oid);
      assert items == items[..|items| - 1] + [items[|items| - 1]];
    }
  }

  /** `UPDATE itens_pedido SET status = ? WHERE id = ? AND pedido_id = ?`. */
  function SetRowStatus(items: seq<Item>, itemId: int, oid: int, s: ItemStatus): (r: seq<Item>)
    ensures |r| == |items|
  {
    if items == [] then []
    else
      var last := items[|items| - 1];
      SetRowStatus(items[..|items| - 1], itemId, oid, s) + [if RowMatches(last, itemId, oid) then last.(status := s) else last]
  }

  /** The matching rows take the new status; every other row, and every row's place, is kept. */
  lemma {:induction false} SetRowStatusSpec(items: seq<Item>, itemId: int, oid: int, s: ItemStatus)
    ensures forall i :: 0 <= i < |items| ==>
      SetRowStatus(items, itemId, oid, s)[i] == if RowMatches(items[i], itemId, oid) then items[i].(status := s) else items[i]
  {
    if items != [] {
      SetRowStatusSpec(items[..|items| - 1], itemId, oid, s);
    }
  }

  /** `COUNT(*) … WHERE pedido_id = ? AND status NOT IN ('pronto', 'entregue', 'cancelado')`. */
  function PendingCount(items: seq<Item>, oid: int): nat {
    if items == [] then 0
    else
      var last := items[|items| - 1];
      PendingCount(items[..|items| - 1], oid) + (if last.pedido == oid && !IsTerminal(last.status) then 1 else 0)
  }

  /** The count is zero exactly when every row of the order is terminal (also when the order has no rows). */
  lemma {:induction false} PendingCountZeroIff(items: seq<Item>, oid: int)
    ensures PendingCount(items, oid) == 0 <==>
      forall i :: 0 <= i < |items| && items[i].pedido == oid ==> IsTerminal(items[i].status)
  {
    if items != [] {
      var init := items[..|items| - 1];
      PendingCountZeroIff(init, oid);
      assert forall i :: 0 <= i < |init| ==> init[i] == items[i];
    }
  }

  /** The rows the cancel handler credits: those of the order that are not cancelled, in table order. */
  function LiveRowsOf(items: seq<Item>, oid: int): (r: seq<Item>)
    ensures |r| <= |items|
  {
    if items == [] then []
    else
      var last := items[|items| - 1];
      LiveRowsOf(items[..|items| - 1], oid) + (if last.pedido == oid && last.status != ItemCancelado then [last] else [])
  }

  /** The rows credited are rows of the order that are not cancelled, and every such row is among them. */
  lemma {:induction false} LiveRowsOfSpec(items: seq<Item>, oid: int)
    ensures forall it :: it in LiveRowsOf(items, oid) <==> it in items && it.pedido == oid && it.status != ItemCancelado
  {
    if items != [] {
      LiveRowsOfSpec(items[..|items| - 1], oid);
      assert items == items[..|items| - 1] + [items[|items| - 1]];
    }
  }

  // ---------------------------------------------------------------- payments

  /** `SELECT COALESCE(SUM(valor), 0) FROM pagamentos WHERE pedido_id = ?`. */
  function PaidTotal(payments: seq<Payment>, oid: int): int {
    if payments == [] then 0
    else
      var last := payments[|payments| - 1];
      PaidTotal(payments[..|payments| - 1], oid) + (if last.pedido == oid then last.valor else 0)
  }

  /** Deleting the payment at index `i` takes exactly its amount off its own order's paid total. */
  lemma {:induction false} PaidTotalWithout(payments: seq<Payment>, i: int, oid: int)
    requires 0 <= i < |payments|
    ensures PaidTotal(payments[..i] + payments[i + 1..], oid)
      == PaidTotal(payments, oid) - (if payments[i].pedido == oid then payments[i].valor else 0)
    decreases |payments|
  {
    var n := |payments|;
    var rest := payments[..i] + payments[i + 1..];
    if i == n - 1 {
      assert rest == payments[..n - 1];
    } else {
      var init := payments[..n - 1];
      PaidTotalWithout(init, i, oid);
      var shorter := init[..i] + init[i + 1..];
      assert |rest| == n - 1;
      assert rest[..n - 2] == shorter;
      assert rest[n - 2] == payments[n - 1];
      assert PaidTotal(rest, oid) == PaidTotal(shorter, oid) + (if payments[n - 1].pedido == oid then payments[n - 1].valor else 0);
    }
  }

  /** The body of a successful payment response. */
  datatype Envelope = Envelope(pedidoTotal: int, totalPago: int, restante: int, completo: bool)

  /** The response fields after recording `valor` on an order of `total` already paid `paid`. */
  function PaymentEnvelope(total: int, paid: int, valor: int): (e: Envelope)
    ensures e.pedidoTotal == total && e.totalPago == paid + valor
    ensures e.completo <==> e.totalPago >= total
    ensures e.restante >= 0
    ensures e.restante == 0 <==> e.completo
    ensures e.restante > 0 ==> e.totalPago + e.restante == total
  {
    var novo := paid + valor;
    Envelope(total, novo, Max(0, total - novo), novo >= total)
  }

  /** The overpayment guard, with the 0.01 tolerance as one cent. */
  predicate ExceedsRemaining(total: int, paid: int, valor: int) {
    valor > (total - paid) + 1
  }

  // ---------------------------------------------------------------- cancellation notes

  const NoReason := "Sem motivo informado"

  /** PostgreSQL's `COALESCE(observacao || ' | ', '') || 'CANCELADO: ' || motivo`. */
  function BackendCancelNote(obs: Option<string>, motivo: Option<string>): (r: string)
    ensures obs.None? ==> r == "CANCELADO: " + StrOr(motivo, NoReason)
    ensures obs.Some? ==> r == obs.value + " | " + "CANCELADO: " + StrOr(motivo, NoReason)
  {
    var msg := "CANCELADO: " + StrOr(motivo, NoReason);
    match obs
    case None => msg
    case Some(s) => s + " | " + msg
  }

  /** The Workers handler's `currentObs ? currentObs + ' | ' + obs : obs`; an empty note counts as none. */
  function CloudflareCancelNote(obs: Option<string>, nome: string, motivo: Option<string>): (r: string)
    ensures TruthyStr(obs) ==> r == obs.value + " | " + "CANCELADO por " + nome + ": " + StrOr(motivo, NoReason)
    ensures !TruthyStr(obs) ==> r == "CANCELADO por " + nome + ": " + StrOr(motivo, NoReason)
  {
    var msg := "CANCELADO por " + nome + ": " + StrOr(motivo, NoReason);
    if TruthyStr(obs) then obs.value + " | " + msg else msg
  }

  /** Both notes keep the previous note as a prefix and end with the cancellation reason. */
  lemma CancelNotesKeepHistory(obs: string, nome: string, motivo: Option<string>)
    ensures var b := BackendCancelNote(Some(obs), motivo);
      |b| > |obs| && b[..|obs|] == obs && b[|b| - |StrOr(motivo, NoReason)|..] == StrOr(motivo, NoReason)
    ensures var c := CloudflareCancelNote(Some(obs), nome, motivo);
      c[|c| - |StrOr(motivo, NoReason)|..] == StrOr(motivo, NoReason)
      && (obs != "" ==> c[..|obs|] == obs)
  {
    var m := StrOr(motivo, NoReason);
    var b1 := obs + " | ";
    var b2 := b1 + "CANCELADO: ";
    KeepsPrefix(b1, "CANCELADO: ", |obs|);
    KeepsPrefix(b2, m, |obs|);
    EndsWith(b2, m);
    if obs != "" {
      var c1 := obs + " | ";
      var c2 := c1 + "CANCELADO por ";
      var c3 := c2 + nome;
      var c4 := c3 + ": ";
      KeepsPrefix(c1, "CANCELADO por ", |obs|);
      KeepsPrefix(c2, nome, |obs|);
      KeepsPrefix(c3, ": ", |obs|);
      KeepsPrefix(c4, m, |obs|);
      EndsWith(c4, m);
    } else {
      EndsWith("CANCELADO por " + nome + ": ", m);
    }
  }

  /** Appending to a string leaves its first `n` characters alone. */
  lemma KeepsPrefix(s: string, z: string, n: nat)
    requires n <= |s|
    ensures (s + z)[..n] == s[..n]
  {
  }

  /** A string ends with whatever was appended last. */
  lemma EndsWith(x: string, z: string)
    ensures (x + z)[|x + z| - |z|..] == z
  {
  }
}
