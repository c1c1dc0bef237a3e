/**
 * The table routes (`/api/mesas`) of both servers: list the tables in floor
 * order, show one with its active order, set a table's status by hand, and
 * create or delete a table (managers only).
 */
module Tables {
  import opened Common
  import opened Schema
  import opened Sorting
  import opened Middleware
  import opened Orders

  datatype TableError =
    | Unauthorized
    | Forbidden
    | BadStatus
    | TableNotFound
    | MissingNumero
    | DuplicateNumero
    | HasActiveOrder

  function TableStatusCode(e: TableError): (code: int)
    ensures code == 401 <==> e == Unauthorized
    ensures code == 403 <==> e == Forbidden
    ensures code == 404 <==> e == TableNotFound
    ensures code in {400, 401, 403, 404}
  {
    match e
    case Unauthorized => 401
    case Forbidden => 403
    case TableNotFound => 404
    case _ => 400
  }

  function FromRoleFailure(f: RoleFailure): TableError {
    if f == NotAuthenticated then Unauthorized else Forbidden
  }

  function TableStatusName(s: TableStatus): string {
    match s
    case Livre => "livre"
    case Ocupada => "ocupada"
    case Reservada => "reservada"
  }

  /** The accepted manual statuses: exactly the three names. */
  function ParseTableStatus(s: Option<string>): (r: Option<TableStatus>)
    ensures r.Some? ==> s == Some(TableStatusName(r.value))
    ensures forall t :: s == Some(TableStatusName(t)) ==> r == Some(t)
  {
    if s == Some("livre") then Some(Livre)
    else if s == Some("ocupada") then Some(Ocupada)
    else if s == Some("reservada") then Some(Reservada)
    else None
  }

  /**
   * PUT /api/mesas/:id/status. An unknown status is refused before the
   * lookup (400), an unknown table gives 404, and only the status changes.
   */
  method SetStatus(db: Database, id: int, status: Option<string>) returns (r: Result<Table, TableError>)
    requires db.Valid()
    modifies db`tables
    ensures db.Valid()
    ensures r == Err(BadStatus) <==> ParseTableStatus(status).None?
    ensures r == Err(TableNotFound) <==> ParseTableStatus(status).Some? && id !in old(db.tables)
    ensures r.Err? ==> unchanged(db)
    ensures r.Ok? ==>
      id in old(db.tables) && r.value == old(db.tables)[id].(status := ParseTableStatus(status).value)
      && db.tables == old(db.tables)[id := r.value]
  {
    var s := ParseTableStatus(status);
    if s.None? {
      return Err(BadStatus);
    }
    if id !in db.tables {
      return Err(TableNotFound);
    }
    var t := db.tables[id].(status := s.value);
    db.tables := db.tables[id := t];
    return Ok(t);
  }

  /**
   * The `pedido` of GET /api/mesas/:id: the active order with its `itens`.
   * `itens` is NULL when Express aggregates no item row (`json_agg ...
   * FILTER` over nothing); Workers always sends a list.
   */
  datatype ActiveOrder = ActiveOrder(id: int, order: Order, itens: Option<seq<Item>>)

  datatype TableDetail = TableDetail(mesa: Table, pedido: Option<ActiveOrder>)

  /** The order's items in insertion order, as each server sends them. */
  function OrderItems(dep: Deployment, items: seq<Item>, oid: int): (r: Option<seq<Item>>)
    ensures dep == Cloudflare ==> r == Some(Where(items, (it: Item) => it.pedido == oid))
    ensures dep == Backend ==> (r.None? <==> forall k :: 0 <= k < |items| ==> items[k].pedido != oid)
    ensures r.Some? ==> r.value == Where(items, (it: Item) => it.pedido == oid)
  {
    var itens := Where(items, (it: Item) => it.pedido == oid);
    WhereSpec(items, (it: Item) => it.pedido == oid);
    assert itens == [] <==> forall k :: 0 <= k < |items| ==> items[k].pedido != oid by {
      if itens != [] {
        assert itens[0] in itens;
      } else {
        forall k | 0 <= k < |items| ensures items[k].pedido != oid {
          assert items[k] in items && items[k] !in itens;
        }
      }
    }
    if dep == Backend && itens == [] then None else Some(itens)
  }

  /**
   * GET /api/mesas/:id. The active order is any order on the table in
   * `aberto`, `producao` or `pronto` (`LIMIT 1`); while every table has at
   * most one, it is that one. Its items are listed in insertion order.
   */
  method GetTable(db: Database, dep: Deployment, id: int) returns (r: Result<TableDetail, TableError>)
    ensures r.Err? <==> id !in db.tables
    ensures r.Err? ==> r.error == TableNotFound
    ensures r.Ok? ==> r.value.mesa == db.tables[id]
    ensures r.Ok? ==> (r.value.pedido.None? <==> !ActiveOrderAt(db.orders, id))
    ensures r.Ok? && r.value.pedido.Some? ==>
      var a := r.value.pedido.value;
      && a.id in db.orders && db.orders[a.id] == a.order && a.order.mesa == Some(id) && IsActive(a.order.status)
      && a.itens == OrderItems(dep, db.items, a.id)
      && (id != 0 && OneActivePerTable(db.orders) ==>
            forall k :: k in db.orders && db.orders[k].mesa == Some(id) && IsActive(db.orders[k].status) ==> k == a.id)
  {
    if id !in db.tables {
      return Err(TableNotFound);
    }
    if exists k :: k in db.orders && db.orders[k].mesa == Some(id) && IsActive(db.orders[k].status) {
      var oid :| oid in db.orders && db.orders[oid].mesa == Some(id) && IsActive(db.orders[oid].status);
      return Ok(TableDetail(db.tables[id], Some(ActiveOrder(oid, db.orders[oid], OrderItems(dep, db.items, oid)))));
    }
    return Ok(TableDetail(db.tables[id], None));
  }

  /** An active order without items: Express sends `itens` as NULL, Workers as an empty list. */
  lemma EmptyOrderItems(items: seq<Item>, oid: int)
    requires forall k :: 0 <= k < |items| ==> items[k].pedido != oid
    ensures OrderItems(Backend, items, oid) == None
    ensures OrderItems(Cloudflare, items, oid) == Some([])
  {
    WhereSpec(items, (it: Item) => it.pedido == oid);
  }

  /** A `numero` already taken by another table (the UNIQUE constraint). */
  predicate NumeroTaken(tables: map<int, Table>, numero: string) {
    exists k :: k in tables && tables[k].numero == numero
  }

  /** The row POST /api/mesas inserts: capacity 4 and location `salao` unless given (falsy values count as not given). */
  function NewTable(numero: string, capacidade: Option<int>, localizacao: Option<string>): (t: Table)
    ensures t.numero == numero && t.status == Livre && t.area.None?
    ensures t.capacidade == (if TruthyInt(capacidade) then capacidade.value else 4)
    ensures t.localizacao == (if TruthyStr(localizacao) then localizacao.value else "salao")
  {
    Table(numero, IntOr(capacidade, 4), StrOr(localizacao, "salao"), None, Livre)
  }

  /**
   * POST /api/mesas. The role gate (admin or gerente), then a required
   * `numero`; a `numero` in use is refused by the UNIQUE constraint (400).
   */
  method CreateTable(db: Database, dep: Deployment, actor: Option<Actor>, numero: Option<string>,
                     capacidade: Option<int>, localizacao: Option<string>)
    returns (r: Result<int, TableError>)
    requires db.Valid()
    modifies db`tables, db`nextTable
    ensures db.Valid()
    ensures RoleGate(dep, actor, Managers).Some? ==> r == Err(FromRoleFailure(RoleGate(dep, actor, Managers).value))
    ensures r == Err(MissingNumero) <==> RoleAllowed(actor, Managers) && !TruthyStr(numero)
    ensures r == Err(DuplicateNumero) <==>
      RoleAllowed(actor, Managers) && TruthyStr(numero) && NumeroTaken(old(db.tables), numero.value)
    ensures r.Ok? <==>
      RoleAllowed(actor, Managers) && TruthyStr(numero) && !NumeroTaken(old(db.tables), numero.value)
    ensures r.Err? ==> unchanged(db)
    ensures r.Ok? ==>
      r.value == old(db.nextTable) && r.value !in old(db.tables)
      && db.tables == old(db.tables)[r.value := NewTable(numero.value, capacidade, localizacao)]
  {
    var gate := RoleGate(dep, actor, Managers);
    if gate.Some? {
      return Err(FromRoleFailure(gate.value));
    }
    if !TruthyStr(numero) {
      return Err(MissingNumero);
    }
    if exists k :: k in db.tables && db.tables[k].numero == numero.value {
      return Err(DuplicateNumero);
    }
    var id := InsertTable(db, NewTable(numero.value, capacidade, localizacao));
    return Ok(id);
  }

  method InsertTable(db: Database, t: Table) returns (id: int)
    requires db.Valid() && !NumeroTaken(db.tables, t.numero)
    modifies db`tables, db`nextTable
    ensures db.Valid()
    ensures id == old(db.nextTable) && id !in old(db.tables)
    ensures db.tables == old(db.tables)[id := t]
  {
    id := db.nextTable;
    db.tables, db.nextTable := db.tables[id := t], id + 1;
  }

  /**
   * DELETE /api/mesas/:id. The role gate, then a table with an active order
   * is kept (400); only then is an unknown table reported (404).
   */
  method DeleteTable(db: Database, dep: Deployment, actor: Option<Actor>, id: int)
    returns (r: Result<Table, TableError>)
    requires db.Valid()
    modifies db`tables
    ensures db.Valid()
    ensures RoleGate(dep, actor, Managers).Some? ==> r == Err(FromRoleFailure(RoleGate(dep, actor, Managers).value))
    ensures r == Err(HasActiveOrder) <==> RoleAllowed(actor, Managers) && ActiveOrderAt(db.orders, id)
    ensures r == Err(TableNotFound) <==>
      RoleAllowed(actor, Managers) && !ActiveOrderAt(db.orders, id) && id !in old(db.tables)
    ensures r.Err? ==> unchanged(db)
    ensures r.Ok? ==>
      id in old(db.tables) && r.value == old(db.tables)[id] && db.tables == old(db.tables) - {id}
  {
    var gate := RoleGate(dep, actor, Managers);
    if gate.Some? {
      return Err(FromRoleFailure(gate.value));
    }
    if exists k :: k in db.orders && db.orders[k].mesa == Some(id) && IsActive(db.orders[k].status) {
      return Err(HasActiveOrder);
    }
    if id !in db.tables {
      return Err(TableNotFound);
    }
    var t := db.tables[id];
    db.tables := db.tables - {id};
    return Ok(t);
  }

  // ---------------------------------------------------------------- the floor list

  /** The join condition `p.mesa_id = m.id AND p.status IN ('aberto', 'producao', 'pronto')`. */
  predicate ActiveAt(o: (int, Order), mesa: int) {
    o.1.mesa == Some(mesa) && IsActive(o.1.status)
  }

  /** `(SELECT COUNT(*) FROM itens_pedido WHERE pedido_id = p.id)`: every item row of the order, cancelled ones included. */
  function ItemCount(items: seq<Item>, oid: int): (n: nat)
    ensures n <= |items|
    ensures n == 0 <==> forall i :: 0 <= i < |items| ==> items[i].pedido != oid
  {
    if items == [] then 0
    else
      var rest := ItemCount(items[1..], oid);
      assert forall i :: 1 <= i < |items| ==> items[i] == items[1..][i - 1];
      (if items[0].pedido == oid then 1 else 0) + rest
  }

  /** The order columns of a joined row: `pedido_id`, `pedido_total` and `qtd_itens`. */
  datatype OrderColumns = OrderColumns(id: int, total: int, qtdItens: int)

  /** One row of GET /api/mesas: the table's own columns, and its active order's or NULLs. */
  datatype FloorRow = FloorRow(id: int, mesa: Table, pedido: Option<OrderColumns>)

  function Columns(o: (int, Order), items: seq<Item>): OrderColumns {
    OrderColumns(o.0, o.1.total, ItemCount(items, o.0))
  }

  /** The rows the join makes of table `t`: one per active order of that table, in the orders' storage order. */
  function OrderRows(t: (int, Table), orders: seq<(int, Order)>, items: seq<Item>): seq<FloorRow> {
    if orders == [] then []
    else
      (if ActiveAt(orders[0], t.0) then [FloorRow(t.0, t.1, Some(Columns(orders[0], items)))] else [])
      + OrderRows(t, orders[1..], items)
  }

  /** The LEFT JOIN keeps a table with no active order, as one row with NULL order columns. */
  function TableRows(t: (int, Table), orders: seq<(int, Order)>, items: seq<Item>): seq<FloorRow> {
    var matched := OrderRows(t, orders, items);
    if matched == [] then [FloorRow(t.0, t.1, None)] else matched
  }

  /** The rows of the LEFT JOIN before ordering. */
  function Joined(tables: seq<(int, Table)>, orders: seq<(int, Order)>, items: seq<Item>): seq<FloorRow> {
    if tables == [] then []
    else TableRows(tables[0], orders, items) + Joined(tables[1..], orders, items)
  }

  /** What the join promises of a row: NULL order columns only when its table has no active order, otherwise one active order's columns. */
  predicate JoinedRow(orders: seq<(int, Order)>, items: seq<Item>, row: FloorRow) {
    match row.pedido
    case None => forall o :: o in orders ==> !ActiveAt(o, row.id)
    case Some(c) => exists o :: o in orders && ActiveAt(o, row.id) && c == Columns(o, items)
  }

  /** The joined rows of one table are exactly its active orders, and none exist iff the table has no active order. */
  lemma {:induction false} OrderRowsSpec(t: (int, Table), orders: seq<(int, Order)>, items: seq<Item>)
    ensures forall row :: row in OrderRows(t, orders, items) <==>
      row.id == t.0 && row.mesa == t.1 && row.pedido.Some?
      && exists o :: o in orders && ActiveAt(o, t.0) && row.pedido.value == Columns(o, items)
    ensures OrderRows(t, orders, items) == [] <==> forall o :: o in orders ==> !ActiveAt(o, t.0)
    decreases |orders|
  {
    if orders != [] {
      OrderRowsSpec(t, orders[1..], items);
      assert orders == [orders[0]] + orders[1..];
    }
  }

  /** A table's rows are exactly the rows the join promises for it, and there is at least one. */
  lemma TableRowsSpec(t: (int, Table), orders: seq<(int, Order)>, items: seq<Item>)
    ensures |TableRows(t, orders, items)| >= 1
    ensures forall row :: row in TableRows(t, orders, items) <==>
      row.id == t.0 && row.mesa == t.1 && JoinedRow(orders, items, row)
  {
    OrderRowsSpec(t, orders, items);
  }

  /** The join holds exactly the promised rows of the stored tables. */
  lemma {:induction false} JoinedSpec(tables: seq<(int, Table)>, orders: seq<(int, Order)>, items: seq<Item>)
    ensures forall row :: row in Joined(tables, orders, items) <==>
      (row.id, row.mesa) in tables && JoinedRow(orders, items, row)
    decreases |tables|
  {
    if tables != [] {
      JoinedSpec(tables[1..], orders, items);
      TableRowsSpec(tables[0], orders, items);
      assert tables == [tables[0]] + tables[1..];
    }
  }

  /** `CASE WHEN numero = 'BAL' THEN 1 ELSE 0 END`: the counter goes last. */
  function BalRank(t: Table): int {
    if t.numero == "BAL" then 1 else 0
  }

  /** `ORDER BY` the counter flag, `LENGTH(numero)`, `numero`. */
  predicate FloorLe(a: FloorRow, b: FloorRow) {
    BalRank(a.mesa) < BalRank(b.mesa)
    || (BalRank(a.mesa) == BalRank(b.mesa) && KeyThenStrLe(|a.mesa.numero|, a.mesa.numero, |b.mesa.numero|, b.mesa.numero))
  }

  lemma FloorLeTotal()
    ensures TotalPreorder(FloorLe)
  {
    forall a: FloorRow, b: FloorRow ensures FloorLe(a, b) || FloorLe(b, a) {
      KeyThenStrLeTotal(|a.mesa.numero|, a.mesa.numero, |b.mesa.numero|, b.mesa.numero);
    }
    forall a: FloorRow, b: FloorRow, c: FloorRow | FloorLe(a, b) && FloorLe(b, c)
      ensures FloorLe(a, c)
    {
      if BalRank(a.mesa) == BalRank(b.mesa) == BalRank(c.mesa) {
        KeyThenStrLeTrans(|a.mesa.numero|, a.mesa.numero, |b.mesa.numero|, b.mesa.numero,
                          |c.mesa.numero|, c.mesa.numero);
      }
    }
  }

  /**
   * GET /api/mesas: every table joined with its active orders, in floor
   * order. `pedido_inicio` (the order's creation time) is not modelled.
   */
  function FloorList(tables: seq<(int, Table)>, orders: seq<(int, Order)>, items: seq<Item>): seq<FloorRow> {
    SortBy(Joined(tables, orders, items), FloorLe)
  }

  /**
   * The list holds one row per table and active order, and one row with no
   * order for a table that has none, so every table is listed and a table
   * with two active orders is listed twice. The rows are in floor order:
   * `BAL` after every other table, a shorter `numero` first (table 2 before
   * table 10), then `numero` itself.
   */
  lemma FloorListSpec(tables: seq<(int, Table)>, orders: seq<(int, Order)>, items: seq<Item>)
    ensures forall row :: row in FloorList(tables, orders, items) <==>
      (row.id, row.mesa) in tables && JoinedRow(orders, items, row)
    ensures forall t :: t in tables ==> exists row :: row in FloorList(tables, orders, items) && row.id == t.0 && row.mesa == t.1
    ensures multiset(FloorList(tables, orders, items)) == multiset(Joined(tables, orders, items))
    ensures SortedBy(FloorList(tables, orders, items), FloorLe)
    ensures forall i, j :: 0 <= i < j < |FloorList(tables, orders, items)| ==>
      var a := FloorList(tables, orders, items)[i].mesa;
      var b := FloorList(tables, orders, items)[j].mesa;
      (a.numero == "BAL" ==> b.numero == "BAL")
      && (b.numero != "BAL" ==> |a.numero| <= |b.numero|)
  {
    var joined := Joined(tables, orders, items);
    JoinedSpec(tables, orders, items);
    EveryTableJoined(tables, orders, items);
    FloorLeTotal();
    SortBySorted(joined, FloorLe);
    SameMembers(SortBy(joined, FloorLe), joined);
    FloorOrderOf(SortBy(joined, FloorLe));
  }

  /** Every table has a row in the join. */
  lemma EveryTableJoined(tables: seq<(int, Table)>, orders: seq<(int, Order)>, items: seq<Item>)
    ensures forall t :: t in tables ==> exists row :: row in Joined(tables, orders, items) && row.id == t.0 && row.mesa == t.1
  {
    JoinedSpec(tables, orders, items);
    forall t | t in tables ensures exists row :: row in Joined(tables, orders, items) && row.id == t.0 && row.mesa == t.1 {
      TableRowsSpec(t, orders, items);
      var row := TableRows(t, orders, items)[0];
      assert row in TableRows(t, orders, items);
      assert (row.id, row.mesa) == t;
    }
  }

  /** What floor order means for the `numero` of two rows. */
  lemma FloorOrderOf(list: seq<FloorRow>)
    requires SortedBy(list, FloorLe)
    ensures forall i, j :: 0 <= i < j < |list| ==>
      (list[i].mesa.numero == "BAL" ==> list[j].mesa.numero == "BAL")
      && (list[j].mesa.numero != "BAL" ==> |list[i].mesa.numero| <= |list[j].mesa.numero|)
  {
    forall i, j | 0 <= i < j < |list|
      ensures list[i].mesa.numero == "BAL" ==> list[j].mesa.numero == "BAL"
      ensures list[j].mesa.numero != "BAL" ==> |list[i].mesa.numero| <= |list[j].mesa.numero|
    {
      assert FloorLe(list[i], list[j]);
    }
  }

  /** Table "2" sorts before table "10", and both before the counter. */
  lemma FloorOrderExample(t: Table)
    ensures FloorLe(FloorRow(1, t.(numero := "2"), None), FloorRow(2, t.(numero := "10"), None))
    ensures !FloorLe(FloorRow(2, t.(numero := "10"), None), FloorRow(1, t.(numero := "2"), None))
    ensures !FloorLe(FloorRow(3, t.(numero := "BAL"), None), FloorRow(2, t.(numero := "10"), None))
  {
  }
}
