/**
 * The stock page of the frontend: the status badge of each product, the
 * low-stock banner, the search and "low only" filters, the sortable table
 * and the tracking toggle, over the rows GET /api/estoque returns.
 */
module StockView {
  import opened Common
  import opened Schema
  import opened Text
  import opened Sorting
  import Stock

  /**
   * A product as the page holds it. `None` is a member the JSON row does not
   * carry (or carries as null).
   */
  datatype StockRow = StockRow(
    id: int,
    codigo: Option<string>,
    nome: Option<string>,
    categoria: Option<string>,      // `categoria`: the category name the stock list joins in
    categoriaNome: Option<string>,  // `categoria_nome`: the member the page reads for the category
    controle: Option<bool>,         // `controle_estoque`
    estoque: Option<int>,           // `estoque_quantidade`
    minimo: Option<int>)            // `estoque_minimo`

  /** `produto.controle_estoque` is truthy. */
  predicate Controlled(r: StockRow) {
    r.controle == Some(true)
  }

  // ---------------------------------------------------------------- the rows the servers send

  /** The `LEFT JOIN categorias`: the category's name, or null without one. */
  function CategoryName(p: Product, cats: map<int, Category>): (n: Option<string>)
    ensures n.Some? <==> p.categoria.Some? && p.categoria.value in cats
  {
    if p.categoria.Some? && p.categoria.value in cats then Some(cats[p.categoria.value].nome) else None
  }

  /**
   * A row of GET /api/estoque as both servers build it: id, code, name and
   * the two stock numbers, the category's name under `categoria`, and no
   * `controle_estoque` member at all.
   */
  function Received(row: Stock.ProductRow, cats: map<int, Category>): StockRow {
    StockRow(row.0, row.1.codigo, Some(row.1.nome), CategoryName(row.1, cats), None, None,
             row.1.estoque, row.1.estoqueMinimo)
  }

  /**
   * The row the page is written against: the category's name also under
   * `categoria_nome`, and `controle_estoque` true exactly for a tracked
   * product (one whose quantity is not null).
   */
  function ReceivedFixed(row: Stock.ProductRow, cats: map<int, Category>): (r: StockRow)
    ensures r.categoriaNome == CategoryName(row.1, cats)
    ensures Controlled(r) <==> row.1.estoque.Some?
  {
    var r := Received(row, cats);
    r.(categoriaNome := r.categoria, controle := Some(r.estoque.Some?))
  }

  // ---------------------------------------------------------------- status

  /** The badge of a product: out of stock, at or below the minimum, close to it, fine, or not tracked. */
  datatype Status = Critical | Low | Warning | Ok | Inactive

  /** The checks of `getStockStatus` for a tracked product, in order; `min * 1.5` is exact here. */
  function Level(qtd: int, min: int): (s: Status)
    ensures s != Inactive
  {
    if qtd <= 0 then Critical
    else if qtd <= min then Low
    else if qtd as real <= min as real * 1.5 then Warning
    else Status.Ok
  }

  /** `getStockStatus`: `inactive` unless stock control is on; null numbers count as 0. */
  function StockStatus(r: StockRow): Status {
    if !Controlled(r) then Inactive else Level(IntOr(r.estoque, 0), IntOr(r.minimo, 0))
  }

  /** `statusOrder` of the status sort. */
  function Rank(s: Status): (k: int)
    ensures 0 <= k <= 4
  {
    match s
    case Critical => 0
    case Low => 1
    case Warning => 2
    case Ok => 3
    case Inactive => 4
  }

  /** The rank tells the statuses apart, worst first. */
  lemma RankOrder(s: Status, t: Status)
    ensures Rank(s) == Rank(t) <==> s == t
    ensures Rank(Critical) < Rank(Low) < Rank(Warning) < Rank(Status.Ok) < Rank(Inactive)
  {
  }

  /** The 1.5 threshold in integers: `qtd <= min * 1.5` exactly when `2 * qtd <= 3 * min`. */
  lemma WarningThreshold(qtd: int, min: int)
    ensures qtd as real <= min as real * 1.5 <==> 2 * qtd <= 3 * min
  {
    assert 2.0 * (qtd as real) == (2 * qtd) as real && 2.0 * (min as real * 1.5) == (3 * min) as real;
  }

  /**
   * The bands of a tracked product with a non-negative minimum: nothing left
   * is critical, up to the minimum is low, up to one and a half times the
   * minimum is a warning, and more is fine.
   */
  lemma LevelBands(qtd: int, min: int)
    requires min >= 0
    ensures Level(qtd, min) == Critical <==> qtd <= 0
    ensures Level(qtd, min) == Low <==> 0 < qtd <= min
    ensures Level(qtd, min) == Warning <==> min < qtd && 2 * qtd <= 3 * min
    ensures Level(qtd, min) == Status.Ok <==> min < qtd && 3 * min < 2 * qtd && 0 < qtd
  {
    WarningThreshold(qtd, min);
  }

  /** More stock never makes the badge worse, and a higher minimum never makes it better. */
  lemma LevelMonotone(q1: int, q2: int, m1: int, m2: int)
    requires q1 <= q2 && m2 <= m1
    ensures Rank(Level(q1, m1)) <= Rank(Level(q2, m2))
  {
    WarningThreshold(q1, m1);
    WarningThreshold(q2, m2);
  }

  /** `StockBadge`'s labels. */
  function Label(s: Status): string {
    match s
    case Ok => "OK"
    case Warning => "Baixo"
    case Low => "Critico"
    case Critical => "Zerado"
    case Inactive => "Sem controle"
  }

  /** No two statuses share a label. */
  lemma LabelsDistinct(s: Status, t: Status)
    ensures Label(s) == Label(t) ==> s == t
  {
  }

  // ---------------------------------------------------------------- banner and filters

  /** `produtosBaixoEstoque`'s test: controlled and at or below the minimum, null counting as 0. */
  predicate IsLow(r: StockRow) {
    Controlled(r) && IntOr(r.estoque, 0) <= IntOr(r.minimo, 0)
  }

  /** The low-stock banner, in the list's order. */
  function LowStock(rows: seq<StockRow>): seq<StockRow> {
    Where(rows, IsLow)
  }

  /**
   * The banner holds exactly the controlled rows at or below their minimum;
   * with a non-negative minimum those are the rows whose badge is critical
   * or low.
   */
  lemma LowStockSpec(rows: seq<StockRow>)
    ensures forall r :: r in LowStock(rows) <==> r in rows && Controlled(r) && IntOr(r.estoque, 0) <= IntOr(r.minimo, 0)
    ensures forall r :: r in rows && IntOr(r.minimo, 0) >= 0 ==>
      (r in LowStock(rows) <==> StockStatus(r) == Critical || StockStatus(r) == Low)
  {
    WhereSpec(rows, IsLow);
    forall r | r in rows && IntOr(r.minimo, 0) >= 0
      ensures IsLow(r) <==> StockStatus(r) == Critical || StockStatus(r) == Low
    {
      LevelBands(IntOr(r.estoque, 0), IntOr(r.minimo, 0));
    }
  }

  /** The search box: name, code or `categoria_nome` contains the term, ignoring case; an empty term keeps every row. */
  predicate MatchesSearch(r: StockRow, busca: string) {
    busca == ""
    || ContainsIgnoreCase(StrOr(r.nome, ""), busca)
    || ContainsIgnoreCase(StrOr(r.codigo, ""), busca)
    || ContainsIgnoreCase(StrOr(r.categoriaNome, ""), busca)
  }

  /** Both filters of `produtosFiltrados`: the search, then "low only" keeping what the banner keeps. */
  predicate Shown(r: StockRow, busca: string, apenasLow: bool) {
    MatchesSearch(r, busca) && (apenasLow ==> IsLow(r))
  }

  // ---------------------------------------------------------------- sorting

  /** `sortDir`. */
  datatype Dir = Asc | Desc

  function Flip(d: Dir): (e: Dir)
    ensures e != d
  {
    if d == Asc then Desc else Asc
  }

  /** `localeCompare`, taken as the character-code order: negative, zero or positive. */
  function LocaleCompare(x: string, y: string): (c: int)
    ensures c == 0 <==> x == y
    ensures c < 0 ==> StrLe(x, y)
    ensures c > 0 ==> StrLe(y, x)
  {
    StrLeTotal(x, y);
    if x == y then 0 else if StrLe(x, y) then -1 else 1
  }

  /** Swapping the arguments of `localeCompare` negates it. */
  lemma LocaleCompareAntisym(x: string, y: string)
    ensures LocaleCompare(y, x) == -LocaleCompare(x, y)
  {
    if x != y && StrLe(x, y) && StrLe(y, x) {
      StrLeAntisym(x, y);
    }
  }

  /** The sort comparator of `produtosFiltrados`: by lower-cased name, by quantity, or by status rank; any other field keeps the order. */
  function Compare(a: StockRow, b: StockRow, field: string, dir: Dir): int {
    if field == "nome" then
      var x, y := Lower(StrOr(a.nome, "")), Lower(StrOr(b.nome, ""));
      if dir == Asc then LocaleCompare(x, y) else LocaleCompare(y, x)
    else if field == "estoque_quantidade" then
      var x, y := IntOr(a.estoque, 0), IntOr(b.estoque, 0);
      if dir == Asc then x - y else y - x
    else if field == "status" then
      var x, y := Rank(StockStatus(a)), Rank(StockStatus(b));
      if dir == Asc then x - y else y - x
    else 0
  }

  /**
   * The comparator is antisymmetric, the descending order is the ascending
   * one reversed, and the status sort puts a worse badge first.
   */
  lemma CompareSpec(a: StockRow, b: StockRow, field: string, dir: Dir)
    ensures Compare(b, a, field, dir) == -Compare(a, b, field, dir)
    ensures Compare(a, b, field, Desc) == Compare(b, a, field, Asc)
    ensures Compare(a, b, "status", Asc) < 0 <==> Rank(StockStatus(a)) < Rank(StockStatus(b))
    ensures Compare(a, b, "estoque_quantidade", Asc) <= 0 <==> IntOr(a.estoque, 0) <= IntOr(b.estoque, 0)
  {
    LocaleCompareAntisym(Lower(StrOr(a.nome, "")), Lower(StrOr(b.nome, "")));
  }

  /** The comparator as the "comes no later than" relation the sort uses. */
  predicate CompareLe(a: StockRow, b: StockRow, field: string, dir: Dir) {
    Compare(a, b, field, dir) <= 0
  }

  /** The name order: ascending is the string order on lower-cased names. */
  lemma NameLe(a: StockRow, b: StockRow, dir: Dir)
    ensures var x, y := Lower(StrOr(a.nome, "")), Lower(StrOr(b.nome, ""));
      CompareLe(a, b, "nome", dir) <==> (if dir == Asc then StrLe(x, y) else StrLe(y, x))
  {
    var x, y := Lower(StrOr(a.nome, "")), Lower(StrOr(b.nome, ""));
    StrLeTotal(x, x);
    LocaleCompareAntisym(x, y);
    if x != y && StrLe(x, y) && StrLe(y, x) {
      StrLeAntisym(x, y);
    }
  }

  /** For every field and direction the comparator orders rows totally, so the sort is well defined. */
  lemma CompareTotal(field: string, dir: Dir)
    ensures TotalPreorder((a, b) => CompareLe(a, b, field, dir))
  {
    forall a, b ensures CompareLe(a, b, field, dir) || CompareLe(b, a, field, dir) {
      NameLe(a, b, dir);
      NameLe(b, a, dir);
      StrLeTotal(Lower(StrOr(a.nome, "")), Lower(StrOr(b.nome, "")));
    }
    forall a, b, c | CompareLe(a, b, field, dir) && CompareLe(b, c, field, dir)
      ensures CompareLe(a, c, field, dir)
    {
      if field == "nome" {
        var x, y, z := Lower(StrOr(a.nome, "")), Lower(StrOr(b.nome, "")), Lower(StrOr(c.nome, ""));
        NameLe(a, b, dir);
        NameLe(b, c, dir);
        NameLe(a, c, dir);
        if dir == Asc {
          StrLeTrans(x, y, z);
        } else {
          StrLeTrans(z, y, x);
        }
      }
    }
  }

  /** The table: the filtered rows, sorted by the chosen field and direction. */
  function Displayed(rows: seq<StockRow>, busca: string, apenasLow: bool, field: string, dir: Dir): seq<StockRow> {
    SortBy(Where(rows, r => Shown(r, busca, apenasLow)), (a, b) => CompareLe(a, b, field, dir))
  }

  /** The table shows exactly the rows that pass both filters, each as often as loaded, in comparator order. */
  lemma DisplayedSpec(rows: seq<StockRow>, busca: string, apenasLow: bool, field: string, dir: Dir)
    ensures forall r :: r in Displayed(rows, busca, apenasLow, field, dir) <==> r in rows && Shown(r, busca, apenasLow)
    ensures multiset(Displayed(rows, busca, apenasLow, field, dir)) == multiset(Where(rows, r => Shown(r, busca, apenasLow)))
    ensures forall i, j :: 0 <= i < j < |Displayed(rows, busca, apenasLow, field, dir)| ==>
      Compare(Displayed(rows, busca, apenasLow, field, dir)[i], Displayed(rows, busca, apenasLow, field, dir)[j], field, dir) <= 0
  {
    CompareTotal(field, dir);
    SelectSpec(rows, r => Shown(r, busca, apenasLow), (a, b) => CompareLe(a, b, field, dir));
  }

  // ---------------------------------------------------------------- the toggle and the adjust button

  /** `handleToggleControle` sends `controle_estoque: !produto.controle_estoque`. */
  function ToggleRequest(r: StockRow): (on: bool)
    ensures on <==> !Controlled(r)
  {
    !Controlled(r)
  }

  /** The adjust button is disabled unless stock control is on. */
  predicate AdjustEnabled(r: StockRow) {
    Controlled(r)
  }

  // ---------------------------------------------------------------- the page as received and as intended

  /**
   * As written, every row the servers send lacks `controle_estoque`: every
   * badge reads "Sem controle", the banner and the "low only" view are
   * empty, the adjust button is disabled, and the toggle only ever asks to
   * switch control on, which for a listed (tracked) product changes nothing.
   */
  lemma ReceivedRowsUncontrolled(rows: seq<Stock.ProductRow>, cats: map<int, Category>, row: Stock.ProductRow)
    ensures StockStatus(Received(row, cats)) == Inactive && !AdjustEnabled(Received(row, cats))
    ensures ToggleRequest(Received(row, cats))
    ensures row.1.estoque.Some? && row.1.estoqueMinimo.Some? ==> Stock.Controlled(row.1, ToggleRequest(Received(row, cats))) == row.1
    ensures LowStock(ReceivedAll(rows, cats)) == []
    ensures forall busca :: Displayed(ReceivedAll(rows, cats), busca, true, "nome", Asc) == []
  {
    LowNone(rows, cats);
  }

  /** The list as the page receives it. */
  function ReceivedAll(rows: seq<Stock.ProductRow>, cats: map<int, Category>): (rs: seq<StockRow>)
    ensures |rs| == |rows| && forall i :: 0 <= i < |rows| ==> rs[i] == Received(rows[i], cats)
  {
    seq(|rows|, i requires 0 <= i < |rows| => Received(rows[i], cats))
  }

  /** The list as the page is written to receive it. */
  function ReceivedAllFixed(rows: seq<Stock.ProductRow>, cats: map<int, Category>): (rs: seq<StockRow>)
    ensures |rs| == |rows| && forall i :: 0 <= i < |rows| ==> rs[i] == ReceivedFixed(rows[i], cats)
  {
    seq(|rows|, i requires 0 <= i < |rows| => ReceivedFixed(rows[i], cats))
  }

  lemma LowNone(rows: seq<Stock.ProductRow>, cats: map<int, Category>)
    ensures LowStock(ReceivedAll(rows, cats)) == []
    ensures forall busca :: Displayed(ReceivedAll(rows, cats), busca, true, "nome", Asc) == []
  {
    var rs := ReceivedAll(rows, cats);
    WhereNone(rs, IsLow);
    forall busca ensures Displayed(rs, busca, true, "nome", Asc) == [] {
      WhereNone(rs, r => Shown(r, busca, true));
    }
  }

  /**
   * With the rows the page is written against, a listed product's badge
   * reflects its stock, the banner row for a product is there exactly when
   * the server ranks it low too (when it has a minimum), and the toggle of a
   * listed product switches its control off.
   */
  lemma FixedRowsShowStock(row: Stock.ProductRow, cats: map<int, Category>)
    requires row.1.estoque.Some?
    ensures StockStatus(ReceivedFixed(row, cats)) == Level(row.1.estoque.value, IntOr(row.1.estoqueMinimo, 0))
    ensures AdjustEnabled(ReceivedFixed(row, cats))
    ensures IsLow(ReceivedFixed(row, cats)) <==> Stock.LowRank(row.1) == 0
    ensures row.1.estoqueMinimo.Some? ==> (IsLow(ReceivedFixed(row, cats)) <==> Stock.AtOrBelowMinimum(row.1))
    ensures !ToggleRequest(ReceivedFixed(row, cats)) && Stock.Controlled(row.1, ToggleRequest(ReceivedFixed(row, cats))).estoque.None?
  {
  }

  /**
   * As written, a term that names only the product's category (longer than
   * its name, with no code) finds nothing, because the stock list sends the
   * name under `categoria` and the search reads `categoria_nome`; the row
   * the page is written against is found.
   */
  lemma CategorySearchMisses(row: Stock.ProductRow, cats: map<int, Category>, busca: string)
    requires row.1.codigo.None? && |busca| > |row.1.nome|
    requires row.1.categoria.Some? && row.1.categoria.value in cats
    requires ContainsIgnoreCase(cats[row.1.categoria.value].nome, busca)
    ensures Received(row, cats).categoria == Some(cats[row.1.categoria.value].nome)
    ensures !MatchesSearch(Received(row, cats), busca)
    ensures MatchesSearch(ReceivedFixed(row, cats), busca)
  {
    assert |Lower(row.1.nome)| < |Lower(busca)| && |Lower("")| < |Lower(busca)|;
  }

  /** The search for "bebidas" misses the product "Agua" of the category "Bebidas". */
  lemma CategorySearchExample()
    ensures var p := Product(Some(1), None, "Agua", None, 500, 0, true, Some(3), Some(5));
      var cats := map[1 := Category("Bebidas", None, 0, true)];
      !MatchesSearch(Received((7, p), cats), "bebidas") && MatchesSearch(ReceivedFixed((7, p), cats), "bebidas")
  {
    var cats := map[1 := Category("Bebidas", None, 0, true)];
    assert OccursAt(Lower("Bebidas"), Lower("bebidas"), 0) by {
      LowerAt("Bebidas");
      LowerAt("bebidas");
      assert Lower("Bebidas") == Lower("bebidas");
    }
    CategorySearchMisses((7, Product(Some(1), None, "Agua", None, 500, 0, true, Some(3), Some(5))), cats, "bebidas");
  }

  /** With the rows the page is written against, a search term contained in the category's name finds the product. */
  lemma FixedSearchFindsCategory(row: Stock.ProductRow, cats: map<int, Category>, busca: string)
    requires row.1.categoria.Some? && row.1.categoria.value in cats
    requires ContainsIgnoreCase(cats[row.1.categoria.value].nome, busca)
    ensures MatchesSearch(ReceivedFixed(row, cats), busca)
  {
  }

  // ---------------------------------------------------------------- the page's state

  /** The page's list, filters and sort state. */
  class StockPage {
    var produtos: seq<StockRow>
    var busca: string
    var apenasLow: bool
    var sortField: string
    var sortDir: Dir

    /** The first render: no rows, no search, all rows, sorted by name ascending. */
    constructor ()
      ensures produtos == [] && busca == "" && !apenasLow && sortField == "nome" && sortDir == Asc
    {
      produtos := [];
      busca := "";
      apenasLow := false;
      sortField := "nome";
      sortDir := Asc;
    }

    /** The table as rendered. */
    function Table(): seq<StockRow>
      reads this
    {
      Displayed(produtos, busca, apenasLow, sortField, sortDir)
    }

    /** The banner as rendered. */
    function Banner(): seq<StockRow>
      reads this
    {
      LowStock(produtos)
    }

    /** `carregarProdutos` once the list arrives: the rows replace the old ones. */
    method Loaded(rows: seq<StockRow>)
      modifies this`produtos
      ensures produtos == rows
    {
      produtos := rows;
    }

    /**
     * `handleSort`: a click on the column already sorted flips the direction;
     * a click on another column sorts by it ascending.
     */
    method HandleSort(field: string)
      modifies this`sortField, this`sortDir
      ensures sortField == field
      ensures field == old(sortField) ==> sortDir == Flip(old(sortDir))
      ensures field != old(sortField) ==> sortDir == Asc
    {
      if sortField == field {
        sortDir := Flip(sortDir);
      } else {
        sortField := field;
        sortDir := Asc;
      }
    }
  }
}
