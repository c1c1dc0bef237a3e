/**
 * The payment routes (`/api/pagamentos`) of both servers: record a payment
 * against an order, and reverse (delete) one. A payment is accepted only while
 * the order is open and only up to what is still owed, with a tolerance of one
 * cent; the answer reports the new paid total and whether the order is now
 * fully paid.
 */
module Payments {
  import opened Common
  import opened Schema
  import opened Ledger

  datatype PaymentError =
    | MissingFields                     // `!pedido_id || !forma || !valor`
    | NotPositive
    | InvalidMethod
    | OrderNotFound
    | OrderPaid
    | OrderCancelled
    | OverRemaining(valorRestante: int)  // the amount still owed, sent back as `valor_restante`
    | PaymentNotFound
    | OrderClosed                       // a reversal on an order that is already `pago`

  function PaymentStatusCode(e: PaymentError): (code: int)
    ensures code == 404 <==> e.OrderNotFound? || e.PaymentNotFound?
    ensures code != 404 ==> code == 400
  {
    if e.OrderNotFound? || e.PaymentNotFound? then 404 else 400
  }

  function MethodName(m: PaymentMethod): string {
    match m
    case Dinheiro => "dinheiro"
    case Pix => "pix"
    case Credito => "credito"
    case Debito => "debito"
    case Voucher => "voucher"
  }

  /** The accepted `forma` values: exactly the five method names. */
  function ParseMethod(s: string): (r: Option<PaymentMethod>)
    ensures r.Some? ==> MethodName(r.value) == s
    ensures forall m :: s == MethodName(m) ==> r == Some(m)
  {
    if s == "dinheiro" then Some(Dinheiro)
    else if s == "pix" then Some(Pix)
    else if s == "credito" then Some(Credito)
    else if s == "debito" then Some(Debito)
    else if s == "voucher" then Some(Voucher)
    else None
  }

  /** The first check of POST /api/pagamentos: order, method and amount are all sent and truthy. */
  predicate AllSent(pedido: Option<int>, forma: Option<string>, valor: Option<int>) {
    TruthyInt(pedido) && TruthyStr(forma) && TruthyInt(valor)
  }

  /** The checks on the request alone, before the order is looked up: all sent, a positive amount, a known method. */
  predicate WellFormedRequest(pedido: Option<int>, forma: Option<string>, valor: Option<int>) {
    AllSent(pedido, forma, valor) && valor.value > 0 && ParseMethod(forma.value).Some?
  }

  /**
   * The checks of POST /api/pagamentos, in the handler's order. An amount of
   * 0 is caught by the first check (a falsy value), a negative one by the
   * second. Each error is returned exactly when every earlier check passed
   * and its own fails.
   */
  function CheckPayment(orders: map<int, Order>, payments: seq<Payment>, pedido: Option<int>,
                        forma: Option<string>, valor: Option<int>): (e: Option<PaymentError>)
    ensures e == Some(MissingFields) <==> !AllSent(pedido, forma, valor)
    ensures e == Some(NotPositive) <==> AllSent(pedido, forma, valor) && valor.value <= 0
    ensures e == Some(InvalidMethod) <==>
      AllSent(pedido, forma, valor) && valor.value > 0 && ParseMethod(forma.value).None?
    ensures e == Some(OrderNotFound) <==> WellFormedRequest(pedido, forma, valor) && pedido.value !in orders
    ensures e == Some(OrderPaid) <==>
      WellFormedRequest(pedido, forma, valor) && pedido.value in orders && orders[pedido.value].status == Pago
    ensures e == Some(OrderCancelled) <==>
      WellFormedRequest(pedido, forma, valor) && pedido.value in orders && orders[pedido.value].status == Cancelado
    ensures (e.Some? && e.value.OverRemaining?) <==>
      WellFormedRequest(pedido, forma, valor) && pedido.value in orders && IsActive(orders[pedido.value].status)
      && valor.value > orders[pedido.value].total - PaidTotal(payments, pedido.value) + 1
    ensures e.Some? && e.value.OverRemaining? ==>
      e.value.valorRestante == orders[pedido.value].total - PaidTotal(payments, pedido.value)
    ensures e.None? <==>
      WellFormedRequest(pedido, forma, valor) && pedido.value in orders && IsActive(orders[pedido.value].status)
      && valor.value <= orders[pedido.value].total - PaidTotal(payments, pedido.value) + 1
    ensures e != Some(PaymentNotFound) && e != Some(OrderClosed)
  {
    if !TruthyInt(pedido) || !TruthyStr(forma) || !TruthyInt(valor) then Some(MissingFields)
    else if valor.value <= 0 then Some(NotPositive)
    else if ParseMethod(forma.value).None? then Some(InvalidMethod)
    else if pedido.value !in orders then Some(OrderNotFound)
    else
      var o := orders[pedido.value];
      var paid := PaidTotal(payments, pedido.value);
      if o.status == Pago then Some(OrderPaid)
      else if o.status == Cancelado then Some(OrderCancelled)
      else if ExceedsRemaining(o.total, paid, valor.value) then Some(OverRemaining(o.total - paid))
      else None
  }

  /** Appending a payment adds its amount to its own order's paid total and to no other. */
  lemma PaidTotalAppend(payments: seq<Payment>, p: Payment, oid: int)
    ensures PaidTotal(payments + [p], oid) == PaidTotal(payments, oid) + (if p.pedido == oid then p.valor else 0)
  {
    assert (payments + [p])[..|payments|] == payments;
  }

  /** A successful POST: the stored row and the response fields. */
  datatype Receipt = Receipt(pagamento: Payment, envelope: Envelope)

  /**
   * POST /api/pagamentos. `troco` defaults to 0 only when it is left out (an
   * explicit null is stored as NULL); the note
   * is stored as sent on Express and as `observacao || null` on Workers.
   */
  method RecordPayment(db: Database, dep: Deployment, pedido: Option<int>, forma: Option<string>,
                       valor: Option<int>, troco: Field<int>, observacao: Option<string>)
    returns (r: Result<Receipt, PaymentError>)
    requires db.Valid()
    modifies db`payments, db`nextPayment
    ensures db.Valid()
    ensures r.Err? <==> CheckPayment(old(db.orders), old(db.payments), pedido, forma, valor).Some?
    ensures r.Err? ==> r.error == CheckPayment(old(db.orders), old(db.payments), pedido, forma, valor).value
    ensures r.Err? ==> unchanged(db)
    ensures r.Ok? ==>
      var p := r.value.pagamento;
      var total := old(db.orders)[pedido.value].total;
      && p == Payment(old(db.nextPayment), pedido.value, ParseMethod(forma.value).value, valor.value,
                      DefaultTo(troco, 0), StoredText(dep, observacao))
      && db.payments == old(db.payments) + [p]
      && r.value.envelope == PaymentEnvelope(total, old(PaidTotal(db.payments, pedido.value)), valor.value)
      && PaidTotal(db.payments, pedido.value) == r.value.envelope.totalPago <= total + 1
  {
    var check := CheckPayment(db.orders, db.payments, pedido, forma, valor);
    if check.Some? {
      return Err(check.value);
    }
    var oid := pedido.value;
    var total := db.orders[oid].total;
    var paid := PaidTotal(db.payments, oid);
    var p := InsertPayment(db, Payment(0, oid, ParseMethod(forma.value).value, valor.value,
                                       DefaultTo(troco, 0), StoredText(dep, observacao)));
    PaidTotalAppend(old(db.payments), p, oid);
    return Ok(Receipt(p, PaymentEnvelope(total, paid, valor.value)));
  }

  /** The INSERT: the row takes the next serial id. */
  method InsertPayment(db: Database, row: Payment) returns (p: Payment)
    requires db.Valid() && row.pedido in db.orders
    modifies db`payments, db`nextPayment
    ensures db.Valid()
    ensures p == row.(id := old(db.nextPayment))
    ensures db.payments == old(db.payments) + [p]
  {
    p := row.(id := db.nextPayment);
    db.payments, db.nextPayment := db.payments + [p], db.nextPayment + 1;
  }

  /** Whether some payment row has id `id`. */
  predicate HasPayment(payments: seq<Payment>, id: int) {
    exists i :: 0 <= i < |payments| && payments[i].id == id
  }

  /** Deleting one row keeps the payment ids distinct and below the counter, and every row on a stored order. */
  lemma SpliceKeepsPaymentIds(payments: seq<Payment>, i: int, next: int, orders: map<int, Order>)
    requires PaymentRowsValid(payments, next, orders) && 0 <= i < |payments|
    ensures PaymentRowsValid(payments[..i] + payments[i + 1..], next, orders)
    ensures !HasPayment(payments[..i] + payments[i + 1..], payments[i].id)
    ensures forall j :: 0 <= j < |payments| && payments[j].id == payments[i].id ==> j == i
  {
    var rest := payments[..i] + payments[i + 1..];
    forall j | 0 <= j < |rest|
      ensures rest[j] == if j < i then payments[j] else payments[j + 1]
    {
    }
  }

  /**
   * DELETE /api/pagamentos/:id. An unknown id gives 404; a payment whose order
   * is already `pago` cannot be reversed (400); otherwise the row is deleted,
   * which takes its amount off its order's paid total and leaves every other
   * order's untouched. The order always exists, because payments are only
   * recorded against existing orders and orders are never deleted.
   */
  method ReversePayment(db: Database, id: int) returns (r: Result<Payment, PaymentError>)
    requires db.Valid()
    modifies db`payments
    ensures db.Valid()
    ensures r == Err(PaymentNotFound) <==> !HasPayment(old(db.payments), id)
    ensures r.Err? ==> unchanged(db)
    ensures r == Err(OrderClosed) <==>
      exists i :: 0 <= i < |old(db.payments)| && old(db.payments)[i].id == id
                  && db.orders[old(db.payments)[i].pedido].status == Pago
    ensures r.Ok? ==>
      && r.value.id == id
      && r.value.pedido in db.orders && db.orders[r.value.pedido].status != Pago
      && !HasPayment(db.payments, id)
      && (exists i :: 0 <= i < |old(db.payments)| && old(db.payments)[i] == r.value
                      && db.payments == old(db.payments)[..i] + old(db.payments)[i + 1..])
      && forall oid :: PaidTotal(db.payments, oid)
                       == PaidTotal(old(db.payments), oid) - (if r.value.pedido == oid then r.value.valor else 0)
  {
    if !HasPayment(db.payments, id) {
      return Err(PaymentNotFound);
    }
    var i :| 0 <= i < |db.payments| && db.payments[i].id == id;
    var p := db.payments[i];
    if db.orders[p.pedido].status == Pago {
      return Err(OrderClosed);
    }
    var rest := db.payments[..i] + db.payments[i + 1..];
    SpliceKeepsPaymentIds(db.payments, i, db.nextPayment, db.orders);
    forall oid | true
      ensures PaidTotal(rest, oid) == PaidTotal(db.payments, oid) - (if p.pedido == oid then p.valor else 0)
    {
      PaidTotalWithout(db.payments, i, oid);
    }
    db.payments := rest;
    return Ok(p);
  }

  /** Paying exactly what is still owed is accepted and completes the order, with nothing left. */
  lemma SettlingTheRemainderCompletes(total: int, paid: int)
    requires paid < total
    ensures !ExceedsRemaining(total, paid, total - paid)
    ensures PaymentEnvelope(total, paid, total - paid) == Envelope(total, total, 0, true)
  {
  }

  /** One cent over what is owed is tolerated, two are not. */
  lemma OneCentTolerance(total: int, paid: int)
    ensures !ExceedsRemaining(total, paid, total - paid + 1)
    ensures ExceedsRemaining(total, paid, total - paid + 2)
  {
  }

  /** R$ 80.00 paid on a R$ 100.00 order: a R$ 30.00 payment is refused with R$ 20.00 still owed. */
  lemma OverpaymentScenario()
    ensures
      var o := Order(None, None, None, None, None, Aberto, 10000, 0, 0, 10000, None);
      var paid := [Payment(1, 7, Dinheiro, 8000, Some(0), None)];
      CheckPayment(map[7 := o], paid, Some(7), Some("pix"), Some(3000)) == Some(OverRemaining(2000))
  {
    var paid := [Payment(1, 7, Dinheiro, 8000, Some(0), None)];
    assert paid[..0] == [];
  }
}
