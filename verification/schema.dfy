/**
 * The restaurant's database: one row type per table and the `Database` class
 * that holds every table. Keyed tables are maps from the row id; order items
 * and payments are kept as sequences of rows that carry their own id, in
 * insertion order (the order `created_at` gives them), because the handlers
 * sum and count over them.
 *
 * Money is in integer cents. Row ids are the serial ids the database assigns,
 * starting at 1, so an id is never the falsy number 0.
 */
module Schema {
  import opened Common

  datatype Product = Product(
    categoria: Option<int>,
    codigo: Option<string>,
    nome: string,
    descricao: Option<string>,
    preco: int,
    tempoPreparo: int,
    ativo: bool,
    estoque: Option<int>,         // `estoque_quantidade`: null means stock is not tracked
    estoqueMinimo: Option<int>)   // `estoque_minimo`

  datatype Category = Category(nome: string, icone: Option<string>, ordem: int, ativo: bool)

  datatype TableStatus = Livre | Ocupada | Reservada

  datatype Table = Table(
    numero: string,
    capacidade: int,
    localizacao: string,
    area: Option<int>,
    status: TableStatus)

  /** An area row; an update that sends `nome` or `ativo` as null writes NULL. */
  datatype Area = Area(nome: Option<string>, descricao: Option<string>, ativo: Option<bool>)

  datatype OrderStatus = Aberto | Producao | Pronto | Pago | Cancelado

  /** The statuses in which an order still occupies its table. */
  predicate IsActive(s: OrderStatus) { s == Aberto || s == Producao || s == Pronto }

  datatype Order = Order(
    mesa: Option<int>,
    tipo: Option<string>,
    cliente: Option<string>,
    observacao: Option<string>,
    garcom: Option<int>,
    status: OrderStatus,
    subtotal: int,
    taxaServico: int,
    desconto: int,
    total: int,
    closedAt: Option<int>)

  datatype ItemStatus = Pendente | Preparando | ItemPronto | Entregue | ItemCancelado

  /** The statuses that count as done for the kitchen. */
  predicate IsTerminal(s: ItemStatus) { s == ItemPronto || s == Entregue || s == ItemCancelado }

  datatype Item = Item(
    id: int,
    pedido: int,
    produto: Option<int>,
    nome: string,          // `produto_nome`, a snapshot taken when the item is added
    quantidade: int,
    precoUnitario: int,    // a snapshot of the product's price
    subtotal: int,
    observacao: Option<string>,
    status: ItemStatus)

  datatype PaymentMethod = Dinheiro | Pix | Credito | Debito | Voucher

  datatype Payment = Payment(
    id: int,
    pedido: int,
    forma: PaymentMethod,
    valor: int,
    troco: Option<int>,
    observacao: Option<string>)

  /** A user row; `ativo` is NULL when an update sent it as null to the Express server. */
  datatype User = User(nome: string, email: string, senhaHash: string, perfil: string, ativo: Option<bool>)

  /** The authenticated user a handler receives (`req.user`): the user row without its hash. */
  datatype Actor = Actor(id: int, nome: string, email: string, perfil: string)

  /** The two deployments: the Express/PostgreSQL server and the Workers/D1 server. */
  datatype Deployment = Backend | Cloudflare

  /** A free-text column: stored as sent on Express, as `x || null` on Workers. */
  function StoredText(dep: Deployment, s: Option<string>): (r: Option<string>)
    ensures dep == Backend ==> r == s
    ensures dep == Cloudflare ==> r == NullIfEmpty(s)
  {
    if dep == Backend then s else NullIfEmpty(s)
  }

  /** A reference column (a foreign id): stored as sent on Express, as `x || null` on Workers. */
  function StoredRef(dep: Deployment, x: Option<int>): (r: Option<int>)
    ensures TruthyInt(x) ==> r == x
    ensures dep == Cloudflare && !TruthyInt(x) ==> r.None?
    ensures dep == Backend ==> r == x
  {
    if dep == Cloudflare && !TruthyInt(x) then None else x
  }

  class Database {
    var products: map<int, Product>
    var categories: map<int, Category>
    var tables: map<int, Table>
    var areas: map<int, Area>
    var orders: map<int, Order>
    var items: seq<Item>
    var payments: seq<Payment>
    var users: map<int, User>
    var nextProduct: int
    var nextCategory: int
    var nextTable: int
    var nextArea: int
    var nextOrder: int
    var nextItem: int
    var nextPayment: int
    var nextUser: int

    /** Every id is below its table's next serial value, and item and payment ids are distinct. */
    ghost predicate Valid()
      reads this`products, this`categories, this`tables, this`areas, this`orders, this`items, this`payments
      reads this`users, this`nextProduct, this`nextCategory, this`nextTable, this`nextArea, this`nextOrder
      reads this`nextItem, this`nextPayment, this`nextUser
    {
      && ProductsValid() && CategoriesValid() && TablesValid() && AreasValid()
      && OrdersValid() && UsersValid() && ItemsValid() && PaymentsValid()
    }

    ghost predicate ProductsValid() reads this`products, this`nextProduct {
      KeysBelow(products, nextProduct)
    }

    ghost predicate CategoriesValid() reads this`categories, this`nextCategory {
      KeysBelow(categories, nextCategory)
    }

    ghost predicate TablesValid() reads this`tables, this`nextTable {
      KeysBelow(tables, nextTable) && UniqueNumeros(tables)
    }

    ghost predicate AreasValid() reads this`areas, this`nextArea {
      KeysBelow(areas, nextArea) && UniqueAreaNames(areas)
    }

    ghost predicate OrdersValid() reads this`orders, this`nextOrder {
      KeysBelow(orders, nextOrder)
    }

    ghost predicate UsersValid() reads this`users, this`nextUser {
      KeysBelow(users, nextUser)
    }

    ghost predicate ItemsValid() reads this`items, this`nextItem {
      ItemIdsValid(items, nextItem)
    }

    /** Payments also point at existing orders: a payment is only recorded for one, and orders are never deleted. */
    ghost predicate PaymentsValid() reads this`payments, this`nextPayment, this`orders {
      PaymentRowsValid(payments, nextPayment, orders)
    }

    constructor ()
      ensures Valid()
      ensures products == map[] && categories == map[] && tables == map[] && areas == map[]
      ensures orders == map[] && items == [] && payments == [] && users == map[]
    {
      products, categories, tables, areas := map[], map[], map[], map[];
      orders, items, payments, users := map[], [], [], map[];
      nextProduct, nextCategory, nextTable, nextArea := 1, 1, 1, 1;
      nextOrder, nextItem, nextPayment, nextUser := 1, 1, 1, 1;
    }
  }

  ghost predicate KeysBelow<V>(m: map<int, V>, next: int) {
    next >= 1 && forall k :: k in m ==> 1 <= k < next
  }

  /** Item ids are serial: positive, below the counter, and increasing in table order. */
  ghost predicate ItemIdsValid(items: seq<Item>, next: int) {
    next >= 1 && IdsWithin(items, 1, next) && IdsIncreasing(items)
  }

  ghost predicate IdsWithin(items: seq<Item>, lo: int, hi: int) {
    forall i :: 0 <= i < |items| ==> lo <= items[i].id < hi
  }

  ghost predicate IdsIncreasing(items: seq<Item>) {
    forall i, j :: 0 <= i < j < |items| ==> items[i].id < items[j].id
  }

  ghost predicate PaymentIdsValid(payments: seq<Payment>, next: int) {
    next >= 1
    && (forall i :: 0 <= i < |payments| ==> 1 <= payments[i].id < next)
    && (forall i, j :: 0 <= i < j < |payments| ==> payments[i].id != payments[j].id)
  }

  /** Payment ids are valid and every payment belongs to a stored order. */
  ghost predicate PaymentRowsValid(payments: seq<Payment>, next: int, orders: map<int, Order>) {
    PaymentIdsValid(payments, next) && forall i :: 0 <= i < |payments| ==> payments[i].pedido in orders
  }

  /** Payments stay valid across an update of the orders that keeps their ids. */
  lemma SameOrderIds(payments: seq<Payment>, next: int, before: map<int, Order>, after: map<int, Order>)
    requires PaymentRowsValid(payments, next, before) && before.Keys == after.Keys
    ensures PaymentRowsValid(payments, next, after)
  {
  }

  /** The UNIQUE constraint on `mesas.numero`. */
  ghost predicate UniqueNumeros(tables: map<int, Table>) {
    forall a, b :: a in tables && b in tables && tables[a].numero == tables[b].numero ==> a == b
  }

  /** The UNIQUE constraint on `areas.nome`. */
  ghost predicate UniqueAreaNames(areas: map<int, Area>) {
    forall a, b :: a in areas && b in areas && areas[a].nome.Some? && areas[a].nome == areas[b].nome ==> a == b
  }
}
