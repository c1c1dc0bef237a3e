/**
 * The cashier screen: it shows what is still owed on the selected order,
 * checks the amount typed before sending a payment, works out the change
 * for cash, and after the server's answer either resets (the order is fully
 * paid and gets closed) or reloads the order for the next partial payment.
 * Amounts are integer cents.
 */
module Cashier {
  import opened Common
  import opened Schema
  import opened Sorting
  import opened Text
  import opened Ledger
  import opened Payments
  import Validators
  import Orders

  /** The payment methods the screen offers (`formasPagamento`). */
  const Offered: seq<string> := ["dinheiro", "pix", "credito", "debito"]

  /** Every method offered is one the servers accept; `voucher` is accepted but not offered. */
  lemma OfferedAreAccepted()
    ensures forall f :: f in Offered ==> ParseMethod(f).Some?
    ensures ParseMethod("voucher").Some? && "voucher" !in Offered
  {
  }

  // ---------------------------------------------------------------- amounts

  /** An amount input: empty, or text that `parseFloat` reads as an amount in cents or as `NaN` (`None`). */
  datatype AmountField = Blank | Typed(cents: Option<int>)

  /** `parseFloat(x) || 0`. */
  function CentsOrZero(f: AmountField): int {
    if f.Typed? && f.cents.Some? then f.cents.value else 0
  }

  /**
   * `calcularTroco`: change is given only for cash, and it is what was
   * handed over beyond the amount paid, never negative.
   */
  function Change(forma: Option<string>, recebido: AmountField, valor: AmountField): (troco: int)
    ensures troco >= 0
    ensures troco > 0 ==> forma == Some("dinheiro") && CentsOrZero(recebido) > CentsOrZero(valor)
    ensures forma == Some("dinheiro") && CentsOrZero(recebido) >= CentsOrZero(valor) ==>
      CentsOrZero(valor) + troco == CentsOrZero(recebido)
  {
    if forma != Some("dinheiro") then 0 else Max(0, CentsOrZero(recebido) - CentsOrZero(valor))
  }

  /** `n.toFixed(2)` for an amount in cents: a minus sign for a negative amount, then the unsigned form. */
  function Fixed2(c: int): (s: string)
    ensures |s| >= 4
  {
    if c < 0 then "-" + UnsignedFixed2(-c) else UnsignedFixed2(c)
  }

  function UnsignedFixed2(n: nat): (s: string)
    ensures |s| >= 4 && IsDigit(s[0])
  {
    NatToString(n / 100) + "." + [DigitChar(n % 100 / 10), DigitChar(n % 10)]
  }

  /** Two digits read as a number. */
  lemma TwoDigits(a: int, b: int)
    requires 0 <= a < 10 && 0 <= b < 10
    ensures AllDigits([DigitChar(a), DigitChar(b)])
    ensures DigitsValue([DigitChar(a), DigitChar(b)]) == 10 * a + b
  {
    var s := [DigitChar(a), DigitChar(b)];
    assert s[..1] == [DigitChar(a)];
    assert DigitsValue([DigitChar(a)]) == a by {
      assert [DigitChar(a)][..0] == [];
    }
  }

  /** Whole reais plus cents over a hundred. */
  lemma CentsAsReal(n: nat)
    ensures (n / 100) as real + (n % 100) as real / 100.0 == n as real / 100.0
  {
    assert n == 100 * (n / 100) + n % 100;
    assert n as real == 100.0 * (n / 100) as real + (n % 100) as real;
  }

  /** A numeral with two decimals is its whole part plus its decimals over a hundred. */
  lemma TwoPlaces(whole: string, frac: string)
    requires AllDigits(whole) && AllDigits(frac) && |frac| == 2
    ensures Validators.DecimalValue(whole, frac) == DigitsValue(whole) as real + DigitsValue(frac) as real / 100.0
  {
    assert Validators.Pow10(2) == 100;
  }

  /** The last two digits of a number of cents, as the two decimals show them. */
  lemma CentsDigits(n: nat)
    ensures AllDigits([DigitChar(n % 100 / 10), DigitChar(n % 10)])
    ensures DigitsValue([DigitChar(n % 100 / 10), DigitChar(n % 10)]) == n % 100
  {
    var m := n % 100;
    TwoDigits(m / 10, n % 10);
    assert n == 100 * (n / 100) + m;
    assert m == 10 * (m / 10) + m % 10;
    assert n == 10 * (10 * (n / 100) + m / 10) + m % 10;
    assert n % 10 == m % 10;
  }

  /** The rendered amount reads back as the same number of cents. */
  lemma UnsignedFixed2RoundTrip(n: nat)
    ensures Validators.ParseUnsigned(UnsignedFixed2(n)) == Some(n as real / 100.0)
  {
    var whole := NatToString(n / 100);
    var frac := [DigitChar(n % 100 / 10), DigitChar(n % 10)];
    CentsDigits(n);
    DigitsValueNatToString(n / 100);
    TwoPlaces(whole, frac);
    CentsAsReal(n);
    assert Validators.DecimalValue(whole, frac) == n as real / 100.0;
    Validators.ParseFraction(whole, frac);
  }

  /**
   * The text the screen writes into the amount input (`restante.toFixed(2)`)
   * is read back as exactly that amount: an amount of `n` cents, and one of
   * `-n` cents behind the minus sign.
   */
  lemma Fixed2RoundTrip(n: nat)
    ensures Validators.ParseDecimal(UnsignedFixed2(n)) == Some(n as real / 100.0)
    ensures Validators.ParseDecimal("-" + UnsignedFixed2(n)) == Some(-(n as real / 100.0))
  {
    UnsignedFixed2RoundTrip(n);
    Validators.SignedNumeral(UnsignedFixed2(n));
    NegatedNumeral(UnsignedFixed2(n), n as real / 100.0);
  }

  lemma NegatedNumeral(u: string, x: real)
    requires |u| > 0 && IsDigit(u[0]) && Validators.ParseUnsigned(u) == Some(x)
    ensures Validators.ParseDecimal("-" + u) == Some(-x)
  {
    Validators.SignedNumeral(u);
  }

  // ---------------------------------------------------------------- what is still owed

  /** The selected order as GET /api/pedidos/:id returns it: its id, its total and its payments. */
  datatype SelectedOrder = SelectedOrder(id: int, total: int, pagamentos: Option<seq<Payment>>)

  /** `pagamentos.reduce((acc, p) => acc + parseFloat(p.valor), 0)`. */
  function AmountSum(ps: seq<Payment>): int {
    if ps == [] then 0 else ps[0].valor + AmountSum(ps[1..])
  }

  /** `calcularRestante`: nothing without a selected order, otherwise the total less every payment listed. */
  function Remaining(selected: Option<SelectedOrder>): int {
    if selected.None? then 0
    else selected.value.total - (if selected.value.pagamentos.Some? then AmountSum(selected.value.pagamentos.value) else 0)
  }

  function IsFor(oid: int): Payment -> bool {
    (p: Payment) => p.pedido == oid
  }

  /** The order detail the servers send: the order's total and its own payments (`WHERE pedido_id = ?`). */
  function Fetched(orders: map<int, Order>, payments: seq<Payment>, oid: int): SelectedOrder
    requires oid in orders
  {
    SelectedOrder(oid, orders[oid].total, Some(Where(payments, IsFor(oid))))
  }

  lemma {:induction false} AmountSumAppend(a: seq<Payment>, b: seq<Payment>)
    ensures AmountSum(a + b) == AmountSum(a) + AmountSum(b)
    decreases |a|
  {
    if a != [] {
      assert (a + b)[1..] == a[1..] + b;
      AmountSumAppend(a[1..], b);
    } else {
      assert a + b == b;
    }
  }

  /** Adding up the payments the order detail lists gives the servers' paid total. */
  lemma {:induction false} OwnPaymentsSum(payments: seq<Payment>, oid: int)
    ensures AmountSum(Where(payments, IsFor(oid))) == PaidTotal(payments, oid)
    decreases |payments|
  {
    if payments != [] {
      var n := |payments|;
      var init := payments[..n - 1];
      var last := payments[n - 1];
      assert payments == init + [last];
      OwnPaymentsSum(init, oid);
      WhereAppend(init, last, IsFor(oid));
      AmountSumAppend(Where(init, IsFor(oid)), if IsFor(oid)(last) then [last] else []);
      assert AmountSum([last]) == last.valor;
    }
  }

  /** What the screen shows as still owed is what the servers compute: the total less the paid total. */
  lemma RemainingMatchesServer(orders: map<int, Order>, payments: seq<Payment>, oid: int)
    requires oid in orders
    ensures Remaining(Some(Fetched(orders, payments, oid))) == orders[oid].total - PaidTotal(payments, oid)
  {
    OwnPaymentsSum(payments, oid);
  }

  // ---------------------------------------------------------------- the amount check

  datatype AmountError = NotPositiveAmount | AboveRemaining(restante: int)

  /**
   * `validarValorPagamento`: the amount must be a positive number and at
   * most what is still owed (no tolerance here).
   */
  function ValidateAmount(valor: AmountField, restante: int): (e: Option<AmountError>)
    ensures e.None? <==> valor.Typed? && valor.cents.Some? && 0 < valor.cents.value <= restante
    ensures e == Some(NotPositiveAmount) <==> !(valor.Typed? && valor.cents.Some? && valor.cents.value > 0)
    ensures e.Some? && e.value.AboveRemaining? ==> e.value.restante == restante
  {
    if !(valor.Typed? && valor.cents.Some?) || valor.cents.value <= 0 then Some(NotPositiveAmount)
    else if valor.cents.value > restante then Some(AboveRemaining(restante))
    else None
  }

  /** The message shown under the input. */
  function AmountMessage(e: AmountError): (m: string)
    ensures m != ""
  {
    match e
    case NotPositiveAmount => "Valor deve ser maior que zero"
    case AboveRemaining(r) => "Valor nao pode exceder o restante (R$ " + Fixed2(r) + ")"
  }

  /**
   * An amount the screen accepts for an open order, with an offered method,
   * is accepted by the servers' payment check.
   */
  lemma ClientCheckImpliesServerAccepts(orders: map<int, Order>, payments: seq<Payment>, oid: int,
                                        forma: string, v: int)
    requires oid in orders && oid != 0 && IsActive(orders[oid].status) && forma in Offered
    requires ValidateAmount(Typed(Some(v)), Remaining(Some(Fetched(orders, payments, oid)))).None?
    ensures CheckPayment(orders, payments, Some(oid), Some(forma), Some(v)).None?
  {
    RemainingMatchesServer(orders, payments, oid);
    OfferedAreAccepted();
  }

  /**
   * The screen is one cent stricter than the servers: one cent over what is
   * owed passes the servers' check but not the screen's.
   */
  lemma ServerToleratesOneCentMore(orders: map<int, Order>, payments: seq<Payment>, oid: int, forma: string)
    requires oid in orders && oid != 0 && IsActive(orders[oid].status) && forma in Offered
    requires orders[oid].total - PaidTotal(payments, oid) >= 0
    ensures var r := orders[oid].total - PaidTotal(payments, oid);
      && CheckPayment(orders, payments, Some(oid), Some(forma), Some(r + 1)).None?
      && ValidateAmount(Typed(Some(r + 1)), Remaining(Some(Fetched(orders, payments, oid)))) == Some(AboveRemaining(r))
  {
    RemainingMatchesServer(orders, payments, oid);
    OfferedAreAccepted();
  }

  /**
   * Paying the amount the screen fills in (all that is still owed) is
   * accepted and the servers report the order as fully paid.
   */
  lemma PrefilledAmountSettles(orders: map<int, Order>, payments: seq<Payment>, oid: int)
    requires oid in orders && orders[oid].total - PaidTotal(payments, oid) > 0
    ensures var r := Remaining(Some(Fetched(orders, payments, oid)));
      && ValidateAmount(Typed(Some(r)), r).None?
      && PaymentEnvelope(orders[oid].total, PaidTotal(payments, oid), r).completo
  {
    RemainingMatchesServer(orders, payments, oid);
  }

  /**
   * The cashier's flow on the server: a payment the server reports as
   * completing its order is followed by the close request the screen sends
   * for that order, and the close is always accepted, because the payments
   * now cover the total.
   */
  method PayThenClose(db: Database, dep: Deployment, pedido: Option<int>, forma: Option<string>, valor: Option<int>,
                      troco: Field<int>, observacao: Option<string>, now: int)
    returns (paid: Result<Receipt, PaymentError>, closed: Option<Result<Order, Orders.OrderError>>)
    requires db.Valid()
    modifies db`payments, db`nextPayment, db`orders, db`tables
    ensures db.Valid()
    ensures closed.Some? <==> paid.Ok? && paid.value.envelope.completo
    ensures closed.Some? ==> closed.value.Ok? && closed.value.value.status == Pago
  {
    paid := RecordPayment(db, dep, pedido, forma, valor, troco, observacao);
    if paid.Err? || !paid.value.envelope.completo {
      closed := None;
      return;
    }
    assert pedido.value in db.orders;
    assert PaidTotal(db.payments, pedido.value) >= db.orders[pedido.value].total;
    var r := Orders.CloseOrder(db, pedido.value, now);
    closed := Some(r);
  }

  // ---------------------------------------------------------------- the screen

  /** The body of `registrarPagamento`. */
  datatype PaymentRequest = PaymentRequest(pedido: int, forma: string, valor: int, troco: int)

  /** What pressing the pay button does. */
  datatype Submission = Ignored | Rejected(error: AmountError) | Submitted(request: PaymentRequest)

  class CashierScreen {
    var selected: Option<SelectedOrder>
    var forma: Option<string>
    var valor: AmountField
    var recebido: AmountField
    var valorError: string

    constructor ()
      ensures selected.None? && forma.None? && valor == Blank && recebido == Blank && valorError == ""
    {
      selected, forma, valor, recebido, valorError := None, None, Blank, Blank, "";
    }

    /**
     * `selecionarPedido`, once the order has been fetched: the amount input
     * is filled with what is still owed, and the method, the cash received
     * and the error are cleared.
     */
    method Select(order: SelectedOrder)
      modifies this
      ensures selected == Some(order) && valor == Typed(Some(Remaining(Some(order))))
      ensures forma.None? && recebido == Blank && valorError == ""
    {
      selected := Some(order);
      valor := Typed(Some(Remaining(selected)));
      forma, recebido, valorError := None, Blank, "";
    }

    /**
     * `handleValorPagamentoChange`: the input takes the new text; a
     * non-empty one is checked at once, an empty one clears the error.
     */
    method ChangeAmount(v: AmountField)
      modifies this`valor, this`valorError
      ensures valor == v
      ensures v == Blank ==> valorError == ""
      ensures v != Blank ==> (valorError == "" <==> ValidateAmount(v, Remaining(selected)).None?)
      ensures v != Blank && ValidateAmount(v, Remaining(selected)).Some? ==>
        valorError == AmountMessage(ValidateAmount(v, Remaining(selected)).value)
    {
      valor := v;
      if v == Blank {
        valorError := "";
      } else {
        var e := ValidateAmount(v, Remaining(selected));
        valorError := if e.Some? then AmountMessage(e.value) else "";
      }
    }

    /**
     * `handlePagamento` up to the request: nothing happens without a
     * method or an amount; an amount the check refuses sets the error;
     * otherwise the payment of the selected order is sent with the change.
     * Without a selected order nothing is ever sent.
     */
    method Pay() returns (s: Submission)
      modifies this`valorError
      ensures !TruthyStr(forma) || valor == Blank ==> s == Ignored && valorError == old(valorError)
      ensures s.Submitted? <==>
        TruthyStr(forma) && valor != Blank && ValidateAmount(valor, Remaining(selected)).None?
      ensures s.Rejected? ==> Some(s.error) == ValidateAmount(valor, Remaining(selected))
                              && valorError == AmountMessage(s.error)
      ensures s.Submitted? ==>
        && selected.Some? && valorError == ""
        && s.request == PaymentRequest(selected.value.id, forma.value, valor.cents.value, Change(forma, recebido, valor))
        && 0 < s.request.valor <= Remaining(selected)
    {
      if !TruthyStr(forma) || valor == Blank {
        return Ignored;
      }
      var e := ValidateAmount(valor, Remaining(selected));
      if e.Some? {
        valorError := AmountMessage(e.value);
        return Rejected(e.value);
      }
      valorError := "";
      return Submitted(PaymentRequest(selected.value.id, forma.value, valor.cents.value, Change(forma, recebido, valor)));
    }

    /**
     * After the server's answer to a payment of the selected order. When it
     * reports `pagamento_completo`, the screen asks the server to close that
     * order (`fecharPedido`) and clears itself; otherwise it fetches the same
     * order again (`reloaded`), so the amount input shows the new remainder.
     * `close` is the order the close request names, if one is sent.
     */
    method Answered(completo: bool, reloaded: SelectedOrder) returns (close: Option<int>)
      requires selected.Some?
      requires !completo ==> reloaded.id == selected.value.id
      modifies this
      ensures close == if completo then Some(old(selected).value.id) else None
      ensures completo ==> selected.None? && forma.None? && valor == Blank && recebido == Blank && valorError == ""
      ensures !completo ==>
        selected == Some(reloaded) && selected.value.id == old(selected).value.id
        && valor == Typed(Some(Remaining(Some(reloaded))))
        && forma.None? && recebido == Blank && valorError == ""
    {
      if completo {
        close := Some(selected.value.id);
        selected, forma, valor, recebido, valorError := None, None, Blank, Blank, "";
      } else {
        close := None;
        Select(reloaded);
      }
    }
  }
}
