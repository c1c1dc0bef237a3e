/**
 * The catalogue routes of both servers: products (`/api/produtos`) and their
 * categories (`/api/categorias`). Managers create, update and soft-delete
 * rows; anyone signed in lists them and reads the menu (`cardapio`), which
 * groups the active products under the active categories.
 *
 * An update is a `COALESCE` per column: a field that arrives as null keeps
 * the stored value. Express passes the body through as it is, so `0`, `''`
 * and `false` are written; Workers first turns every falsy value into null
 * (`x || null`), so those are ignored, except `ativo` (and a category's
 * `ordem`), which Workers passes whenever it is present.
 */
module Catalog {
  import opened Common
  import opened Schema
  import opened Sorting
  import opened Text
  import opened SqlLike
  import opened Middleware

  datatype CatalogError = Unauthorized | Forbidden | MissingFields | NonPositivePrice | NotFound

  function CatalogStatusCode(e: CatalogError): (code: int)
    ensures code == 401 <==> e == Unauthorized
    ensures code == 403 <==> e == Forbidden
    ensures code == 404 <==> e == NotFound
    ensures code in {400, 401, 403, 404}
  {
    match e
    case Unauthorized => 401
    case Forbidden => 403
    case NotFound => 404
    case _ => 400
  }

  function FromRoleFailure(f: RoleFailure): CatalogError {
    if f == NotAuthenticated then Unauthorized else Forbidden
  }

  /** `COALESCE(x, column)` for a NOT NULL column. */
  function Coalesce<T>(x: Option<T>, current: T): (r: T)
    ensures x.Some? ==> r == x.value
    ensures x.None? ==> r == current
  {
    if x.Some? then x.value else current
  }

  /** `COALESCE(x, column)` for a nullable column. */
  function CoalesceOpt<T>(x: Option<T>, current: Option<T>): (r: Option<T>)
    ensures x.Some? ==> r == x
    ensures x.None? ==> r == current
  {
    if x.Some? then x else current
  }

  /** What Workers binds for an `ativo` field: `ativo !== undefined ? (ativo ? 1 : 0) : null`. */
  function WorkerFlag(f: Field<bool>): (r: Field<bool>)
    ensures f.Undefined? ==> r.Undefined?
    ensures f.Defined? ==> r == Defined(Some(f.value == Some(true)))
  {
    if f.Defined? then Defined(Some(f.value == Some(true))) else Undefined
  }

  /** `x || null` for a number. */
  function NullIfZero(x: Option<int>): (r: Option<int>)
    ensures r.Some? <==> TruthyInt(x)
    ensures r.Some? ==> r == x
  {
    if TruthyInt(x) then x else None
  }

  // ---------------------------------------------------------------- products

  /** The body of PUT /api/produtos/:id. */
  datatype ProductPatch = ProductPatch(
    categoria: Option<int>,
    codigo: Option<string>,
    nome: Option<string>,
    descricao: Option<string>,
    preco: Option<int>,
    tempoPreparo: Option<int>,
    ativo: Field<bool>)

  /** The UPDATE with one `COALESCE` per column, given the values as bound. */
  function PatchProduct(p: Product, patch: ProductPatch): Product {
    p.(categoria := CoalesceOpt(patch.categoria, p.categoria),
       codigo := CoalesceOpt(patch.codigo, p.codigo),
       nome := Coalesce(patch.nome, p.nome),
       descricao := CoalesceOpt(patch.descricao, p.descricao),
       preco := Coalesce(patch.preco, p.preco),
       tempoPreparo := Coalesce(patch.tempoPreparo, p.tempoPreparo),
       ativo := if patch.ativo.Defined? then Coalesce(patch.ativo.value, p.ativo) else p.ativo)
  }

  /** The values each server binds: as sent on Express; on Workers falsy values become null. */
  function BoundProductPatch(dep: Deployment, patch: ProductPatch): ProductPatch {
    if dep == Backend then patch
    else
      ProductPatch(NullIfZero(patch.categoria), NullIfEmpty(patch.codigo), NullIfEmpty(patch.nome),
                   NullIfEmpty(patch.descricao), NullIfZero(patch.preco), NullIfZero(patch.tempoPreparo),
                   WorkerFlag(patch.ativo))
  }

  function UpdatedProduct(dep: Deployment, p: Product, patch: ProductPatch): Product {
    PatchProduct(p, BoundProductPatch(dep, patch))
  }

  /**
   * What an update does to one column, on each server: a field left out or
   * null keeps its value; Workers also keeps it for a falsy value; the
   * stock columns never change.
   */
  lemma UpdatedProductSpec(dep: Deployment, p: Product, patch: ProductPatch)
    ensures var q := UpdatedProduct(dep, p, patch);
      && q.estoque == p.estoque && q.estoqueMinimo == p.estoqueMinimo
      && (patch.nome.None? ==> q.nome == p.nome)
      && (dep == Backend && patch.nome.Some? ==> q.nome == patch.nome.value)
      && (dep == Cloudflare ==> q.nome == StrOr(patch.nome, p.nome))
      && (patch.preco.None? ==> q.preco == p.preco)
      && (dep == Backend && patch.preco.Some? ==> q.preco == patch.preco.value)
      && (dep == Cloudflare ==> q.preco == IntOr(patch.preco, p.preco))
      && (patch.ativo.Undefined? ==> q.ativo == p.ativo)
      && (dep == Cloudflare && patch.ativo.Defined? ==> q.ativo == (patch.ativo.value == Some(true)))
      && (dep == Backend && patch.ativo.Defined? && patch.ativo.value.Some? ==> q.ativo == patch.ativo.value.value)
      && (dep == Backend && patch.ativo.Defined? && patch.ativo.value.None? ==> q.ativo == p.ativo)
  {
  }

  /** Sending the same update twice has the effect of sending it once, on either server. */
  lemma UpdatedProductIdempotent(dep: Deployment, p: Product, patch: ProductPatch)
    ensures UpdatedProduct(dep, UpdatedProduct(dep, p, patch), patch) == UpdatedProduct(dep, p, patch)
  {
  }

  /** An empty body changes nothing. */
  lemma EmptyProductPatch(dep: Deployment, p: Product)
    ensures UpdatedProduct(dep, p, ProductPatch(None, None, None, None, None, None, Undefined)) == p
  {
  }

  /** A price of 0 in an update is written on Express but ignored on Workers. */
  lemma ZeroPriceUpdate(p: Product)
    requires p.preco != 0
    ensures UpdatedProduct(Backend, p, ProductPatch(None, None, None, None, Some(0), None, Undefined)).preco == 0
    ensures UpdatedProduct(Cloudflare, p, ProductPatch(None, None, None, None, Some(0), None, Undefined)) == p
  {
  }

  /**
   * The row POST /api/produtos inserts: preparation time 15 unless given,
   * active, and without stock control (the stock columns default to null).
   */
  function NewProduct(dep: Deployment, categoria: Option<int>, codigo: Option<string>, nome: string,
                      descricao: Option<string>, preco: int, tempoPreparo: Option<int>): (p: Product)
    ensures p.nome == nome && p.preco == preco && p.ativo && p.estoque.None? && p.estoqueMinimo.None?
    ensures p.tempoPreparo == IntOr(tempoPreparo, 15)
  {
    Product(StoredRef(dep, categoria), StoredText(dep, codigo), nome, StoredText(dep, descricao), preco,
            IntOr(tempoPreparo, 15), true, None, None)
  }

  /**
   * POST /api/produtos. The role gate, then `nome` and `preco` are required
   * (a price of 0 counts as missing) and a negative price is refused.
   */
  method CreateProduct(db: Database, dep: Deployment, actor: Option<Actor>, categoria: Option<int>,
                       codigo: Option<string>, nome: Option<string>, descricao: Option<string>,
                       preco: Option<int>, tempoPreparo: Option<int>)
    returns (r: Result<int, CatalogError>)
    requires db.Valid()
    modifies db`products, db`nextProduct
    ensures db.Valid()
    ensures RoleGate(dep, actor, Managers).Some? ==> r == Err(FromRoleFailure(RoleGate(dep, actor, Managers).value))
    ensures r == Err(MissingFields) <==> RoleAllowed(actor, Managers) && (!TruthyStr(nome) || !TruthyInt(preco))
    ensures r == Err(NonPositivePrice) <==>
      RoleAllowed(actor, Managers) && TruthyStr(nome) && TruthyInt(preco) && preco.value < 0
    ensures r.Ok? <==> RoleAllowed(actor, Managers) && TruthyStr(nome) && TruthyInt(preco) && preco.value > 0
    ensures r.Err? ==> unchanged(db)
    ensures r.Ok? ==>
      r.value == old(db.nextProduct) && r.value !in old(db.products)
      && db.products == old(db.products)[r.value := NewProduct(dep, categoria, codigo, nome.value, descricao,
                                                               preco.value, tempoPreparo)]
  {
    var gate := RoleGate(dep, actor, Managers);
    if gate.Some? {
      return Err(FromRoleFailure(gate.value));
    }
    if !TruthyStr(nome) || !TruthyInt(preco) {
      return Err(MissingFields);
    }
    if preco.value <= 0 {
      return Err(NonPositivePrice);
    }
    var id := db.nextProduct;
    db.products, db.nextProduct :=
      db.products[id := NewProduct(dep, categoria, codigo, nome.value, descricao, preco.value, tempoPreparo)], id + 1;
    return Ok(id);
  }

  /** PUT /api/produtos/:id. The role gate, then an unknown id gives 404 (the UPDATE touches no row). */
  method UpdateProduct(db: Database, dep: Deployment, actor: Option<Actor>, id: int, patch: ProductPatch)
    returns (r: Result<Product, CatalogError>)
    requires db.Valid()
    modifies db`products
    ensures db.Valid()
    ensures RoleGate(dep, actor, Managers).Some? ==> r == Err(FromRoleFailure(RoleGate(dep, actor, Managers).value))
    ensures r == Err(NotFound) <==> RoleAllowed(actor, Managers) && id !in old(db.products)
    ensures r.Err? ==> unchanged(db)
    ensures r.Ok? ==>
      id in old(db.products) && r.value == UpdatedProduct(dep, old(db.products)[id], patch)
      && db.products == old(db.products)[id := r.value]
  {
    var gate := RoleGate(dep, actor, Managers);
    if gate.Some? {
      return Err(FromRoleFailure(gate.value));
    }
    if id !in db.products {
      return Err(NotFound);
    }
    var p := UpdatedProduct(dep, db.products[id], patch);
    db.products := db.products[id := p];
    return Ok(p);
  }

  /** DELETE /api/produtos/:id: a soft delete that only clears `ativo` and keeps the row. */
  method DeleteProduct(db: Database, dep: Deployment, actor: Option<Actor>, id: int)
    returns (r: Result<Product, CatalogError>)
    requires db.Valid()
    modifies db`products
    ensures db.Valid()
    ensures RoleGate(dep, actor, Managers).Some? ==> r == Err(FromRoleFailure(RoleGate(dep, actor, Managers).value))
    ensures r == Err(NotFound) <==> RoleAllowed(actor, Managers) && id !in old(db.products)
    ensures r.Err? ==> unchanged(db)
    ensures r.Ok? ==>
      id in old(db.products) && r.value == old(db.products)[id].(ativo := false)
      && db.products == old(db.products)[id := r.value] && db.products.Keys == old(db.products).Keys
  {
    var gate := RoleGate(dep, actor, Managers);
    if gate.Some? {
      return Err(FromRoleFailure(gate.value));
    }
    if id !in db.products {
      return Err(NotFound);
    }
    var p := db.products[id].(ativo := false);
    db.products := db.products[id := p];
    return Ok(p);
  }

  /** GET /api/produtos/:id: any product, active or not, with its category's name when it has one. */
  function GetProduct(products: map<int, Product>, categories: map<int, Category>, id: int)
    : (r: Result<(Product, Option<string>), CatalogError>)
    ensures r.Ok? <==> id in products
    ensures r.Err? ==> r.error == NotFound
    ensures r.Ok? ==> r.value.0 == products[id]
    ensures r.Ok? ==> (r.value.1.Some? <==> products[id].categoria.Some? && products[id].categoria.value in categories)
    ensures r.Ok? && r.value.1.Some? ==> r.value.1.value == categories[products[id].categoria.value].nome
  {
    if id !in products then Err(NotFound)
    else
      var p := products[id];
      Ok((p, if p.categoria.Some? && p.categoria.value in categories then Some(categories[p.categoria.value].nome) else None))
  }

  /**
   * The filters of GET /api/produtos. `categoria` is the `categoria_id`
   * query parameter when it was sent non-empty, read as a number; the
   * routes test the raw text, so every such value, "0" included, filters
   * on that category. Then `ativo` as given (only the string "true"
   * selects active rows), else active only; and, for a truthy `busca`,
   * `nome` or `codigo` matching the pattern `'%' + busca + '%'` (`ILIKE` on
   * PostgreSQL, `LIKE` on SQLite).
   */
  predicate InProductList(dep: Deployment, categoria: Option<int>, ativo: Option<string>, busca: Option<string>,
                          row: (int, Product)) {
    (categoria.Some? ==> row.1.categoria == categoria)
    && (if ativo.Some? then row.1.ativo == (ativo.value == "true") else row.1.ativo)
    && (!TruthyStr(busca) || LikeSearch(dep, busca.value, row.1.nome)
        || (row.1.codigo.Some? && LikeSearch(dep, busca.value, row.1.codigo.value)))
  }

  /** `c.ordem` of the LEFT JOIN: the position of the product's category, NULL when it has none or the category is gone. */
  function CategoryOrdem(categories: map<int, Category>, p: Product): Option<int> {
    if p.categoria.Some? && p.categoria.value in categories then Some(categories[p.categoria.value].ordem) else None
  }

  /**
   * `c.ordem` ascending: PostgreSQL sorts NULL after every value, SQLite
   * (under Workers) before every value.
   */
  predicate OrdemBefore(dep: Deployment, x: Option<int>, y: Option<int>) {
    if x.Some? && y.Some? then x.value < y.value
    else if dep == Backend then x.Some? && y.None?
    else x.None? && y.Some?
  }

  /** `ORDER BY c.ordem, p.nome`. */
  predicate ProductLe(dep: Deployment, categories: map<int, Category>, a: (int, Product), b: (int, Product)) {
    var x, y := CategoryOrdem(categories, a.1), CategoryOrdem(categories, b.1);
    OrdemBefore(dep, x, y) || (x == y && StrLe(a.1.nome, b.1.nome))
  }

  /** The product order is total and transitive on both databases. */
  lemma ProductLeTotal(dep: Deployment, categories: map<int, Category>)
    ensures forall a, b :: ProductLe(dep, categories, a, b) || ProductLe(dep, categories, b, a)
    ensures forall a, b, c :: ProductLe(dep, categories, a, b) && ProductLe(dep, categories, b, c) ==>
      ProductLe(dep, categories, a, c)
  {
    forall a: (int, Product), b: (int, Product)
      ensures ProductLe(dep, categories, a, b) || ProductLe(dep, categories, b, a)
    {
      StrLeTotal(a.1.nome, b.1.nome);
    }
    forall a: (int, Product), b: (int, Product), c: (int, Product)
      | ProductLe(dep, categories, a, b) && ProductLe(dep, categories, b, c)
      ensures ProductLe(dep, categories, a, c)
    {
      if CategoryOrdem(categories, a.1) == CategoryOrdem(categories, b.1) == CategoryOrdem(categories, c.1) {
        StrLeTrans(a.1.nome, b.1.nome, c.1.nome);
      }
    }
  }

  /** GET /api/produtos: the rows that pass the filters, by category position and then by name. */
  function ProductList(dep: Deployment, categories: map<int, Category>, rows: seq<(int, Product)>,
                       categoria: Option<int>, ativo: Option<string>, busca: Option<string>): seq<(int, Product)> {
    SortBy(Where(rows, row => InProductList(dep, categoria, ativo, busca, row)), (a, b) => ProductLe(dep, categories, a, b))
  }

  /**
   * The list holds exactly the rows that pass the filters: without an
   * `ativo` filter only active products, with `ativo=false` only inactive
   * ones. They come by category position (products without a category last
   * on PostgreSQL, first on SQLite) and then by name.
   */
  lemma ProductListSpec(dep: Deployment, categories: map<int, Category>, rows: seq<(int, Product)>,
                        categoria: Option<int>, ativo: Option<string>, busca: Option<string>)
    ensures forall row :: row in ProductList(dep, categories, rows, categoria, ativo, busca) <==>
      row in rows && InProductList(dep, categoria, ativo, busca, row)
    ensures categoria.Some? ==>
      forall row :: row in ProductList(dep, categories, rows, categoria, ativo, busca) ==> row.1.categoria == categoria
    ensures ativo.None? ==> forall row :: row in ProductList(dep, categories, rows, categoria, ativo, busca) ==> row.1.ativo
    ensures ativo == Some("false") ==>
      forall row :: row in ProductList(dep, categories, rows, categoria, ativo, busca) ==> !row.1.ativo
    ensures forall i, j :: 0 <= i < j < |ProductList(dep, categories, rows, categoria, ativo, busca)| ==>
      ProductLe(dep, categories, ProductList(dep, categories, rows, categoria, ativo, busca)[i],
                ProductList(dep, categories, rows, categoria, ativo, busca)[j])
  {
    var keep := row => InProductList(dep, categoria, ativo, busca, row);
    var le := (a, b) => ProductLe(dep, categories, a, b);
    var list := ProductList(dep, categories, rows, categoria, ativo, busca);
    assert list == SortBy(Where(rows, keep), le);
    ProductLeTotal(dep, categories);
    assert TotalPreorder(le);
    SelectSpec(rows, keep, le);
    forall row ensures row in list <==> row in rows && InProductList(dep, categoria, ativo, busca, row) {
      assert keep(row) == InProductList(dep, categoria, ativo, busca, row);
    }
    forall i, j | 0 <= i < j < |list| ensures ProductLe(dep, categories, list[i], list[j]) {
      assert le(list[i], list[j]);
    }
  }

  /** `?categoria_id=0` is the non-empty text "0": the list keeps category 0 and drops the others. */
  lemma CategoryZeroFilters(dep: Deployment)
    ensures !InProductList(dep, Some(0), None, None, (1, Product(Some(5), None, "Suco", None, 800, 15, true, None, None)))
    ensures InProductList(dep, Some(0), None, None, (2, Product(Some(0), None, "Agua", None, 500, 15, true, None, None)))
  {
  }

  // ---------------------------------------------------------------- categories

  /** The body of PUT /api/categorias/:id. */
  datatype CategoryPatch = CategoryPatch(nome: Option<string>, icone: Option<string>, ordem: Option<int>,
                                         ativo: Field<bool>)

  function PatchCategory(c: Category, patch: CategoryPatch): Category {
    c.(nome := Coalesce(patch.nome, c.nome),
       icone := CoalesceOpt(patch.icone, c.icone),
       ordem := Coalesce(patch.ordem, c.ordem),
       ativo := if patch.ativo.Defined? then Coalesce(patch.ativo.value, c.ativo) else c.ativo)
  }

  /** On Workers a falsy `nome` or `icone` becomes null, while `ordem` is passed whenever present, so 0 is written. */
  function BoundCategoryPatch(dep: Deployment, patch: CategoryPatch): CategoryPatch {
    if dep == Backend then patch
    else CategoryPatch(NullIfEmpty(patch.nome), NullIfEmpty(patch.icone), patch.ordem, WorkerFlag(patch.ativo))
  }

  function UpdatedCategory(dep: Deployment, c: Category, patch: CategoryPatch): Category {
    PatchCategory(c, BoundCategoryPatch(dep, patch))
  }

  /** Unsent fields keep their values; an `ordem` of 0 is written on both servers; an empty name is ignored on Workers. */
  lemma UpdatedCategorySpec(dep: Deployment, c: Category, patch: CategoryPatch)
    ensures var d := UpdatedCategory(dep, c, patch);
      && (patch.nome.None? ==> d.nome == c.nome)
      && (dep == Cloudflare ==> d.nome == StrOr(patch.nome, c.nome))
      && (dep == Backend && patch.nome.Some? ==> d.nome == patch.nome.value)
      && (patch.ordem.Some? ==> d.ordem == patch.ordem.value)
      && (patch.ordem.None? ==> d.ordem == c.ordem)
      && (patch.ativo.Undefined? ==> d.ativo == c.ativo)
    ensures UpdatedCategory(dep, UpdatedCategory(dep, c, patch), patch) == UpdatedCategory(dep, c, patch)
  {
  }

  /** The row POST /api/categorias inserts: `ordem` 0 unless given, active. */
  function NewCategory(dep: Deployment, nome: string, icone: Option<string>, ordem: Option<int>): (c: Category)
    ensures c.nome == nome && c.ativo && c.ordem == IntOr(ordem, 0)
    ensures dep == Cloudflare ==> c.icone == NullIfEmpty(icone)
  {
    Category(nome, StoredText(dep, icone), IntOr(ordem, 0), true)
  }

  /** POST /api/categorias: the role gate, then a required `nome`. */
  method CreateCategory(db: Database, dep: Deployment, actor: Option<Actor>, nome: Option<string>,
                        icone: Option<string>, ordem: Option<int>)
    returns (r: Result<int, CatalogError>)
    requires db.Valid()
    modifies db`categories, db`nextCategory
    ensures db.Valid()
    ensures RoleGate(dep, actor, Managers).Some? ==> r == Err(FromRoleFailure(RoleGate(dep, actor, Managers).value))
    ensures r == Err(MissingFields) <==> RoleAllowed(actor, Managers) && !TruthyStr(nome)
    ensures r.Ok? <==> RoleAllowed(actor, Managers) && TruthyStr(nome)
    ensures r.Err? ==> unchanged(db)
    ensures r.Ok? ==>
      r.value == old(db.nextCategory) && r.value !in old(db.categories)
      && db.categories == old(db.categories)[r.value := NewCategory(dep, nome.value, icone, ordem)]
  {
    var gate := RoleGate(dep, actor, Managers);
    if gate.Some? {
      return Err(FromRoleFailure(gate.value));
    }
    if !TruthyStr(nome) {
      return Err(MissingFields);
    }
    var id := db.nextCategory;
    db.categories, db.nextCategory := db.categories[id := NewCategory(dep, nome.value, icone, ordem)], id + 1;
    return Ok(id);
  }

  /** PUT /api/categorias/:id: the role gate, then 404 for an unknown id. */
  method UpdateCategory(db: Database, dep: Deployment, actor: Option<Actor>, id: int, patch: CategoryPatch)
    returns (r: Result<Category, CatalogError>)
    requires db.Valid()
    modifies db`categories
    ensures db.Valid()
    ensures RoleGate(dep, actor, Managers).Some? ==> r == Err(FromRoleFailure(RoleGate(dep, actor, Managers).value))
    ensures r == Err(NotFound) <==> RoleAllowed(actor, Managers) && id !in old(db.categories)
    ensures r.Err? ==> unchanged(db)
    ensures r.Ok? ==>
      id in old(db.categories) && r.value == UpdatedCategory(dep, old(db.categories)[id], patch)
      && db.categories == old(db.categories)[id := r.value]
  {
    var gate := RoleGate(dep, actor, Managers);
    if gate.Some? {
      return Err(FromRoleFailure(gate.value));
    }
    if id !in db.categories {
      return Err(NotFound);
    }
    var c := UpdatedCategory(dep, db.categories[id], patch);
    db.categories := db.categories[id := c];
    return Ok(c);
  }

  /** DELETE /api/categorias/:id: a soft delete. */
  method DeleteCategory(db: Database, dep: Deployment, actor: Option<Actor>, id: int)
    returns (r: Result<Category, CatalogError>)
    requires db.Valid()
    modifies db`categories
    ensures db.Valid()
    ensures RoleGate(dep, actor, Managers).Some? ==> r == Err(FromRoleFailure(RoleGate(dep, actor, Managers).value))
    ensures r == Err(NotFound) <==> RoleAllowed(actor, Managers) && id !in old(db.categories)
    ensures r.Err? ==> unchanged(db)
    ensures r.Ok? ==>
      id in old(db.categories) && r.value == old(db.categories)[id].(ativo := false)
      && db.categories == old(db.categories)[id := r.value]
  {
    var gate := RoleGate(dep, actor, Managers);
    if gate.Some? {
      return Err(FromRoleFailure(gate.value));
    }
    if id !in db.categories {
      return Err(NotFound);
    }
    var c := db.categories[id].(ativo := false);
    db.categories := db.categories[id := c];
    return Ok(c);
  }

  /** GET /api/categorias/:id: any category, active or not. */
  function GetCategory(categories: map<int, Category>, id: int): (r: Result<Category, CatalogError>)
    ensures r.Ok? <==> id in categories
    ensures r.Ok? ==> r.value == categories[id]
    ensures r.Err? ==> r.error == NotFound
  {
    if id in categories then Ok(categories[id]) else Err(NotFound)
  }

  /** `ORDER BY ordem, nome`. */
  predicate CategoryLe(a: (int, Category), b: (int, Category)) {
    KeyThenStrLe(a.1.ordem, a.1.nome, b.1.ordem, b.1.nome)
  }

  lemma CategoryLeTotal()
    ensures TotalPreorder(CategoryLe)
  {
    forall a: (int, Category), b: (int, Category) ensures CategoryLe(a, b) || CategoryLe(b, a) {
      KeyThenStrLeTotal(a.1.ordem, a.1.nome, b.1.ordem, b.1.nome);
    }
    forall a: (int, Category), b: (int, Category), c: (int, Category) | CategoryLe(a, b) && CategoryLe(b, c)
      ensures CategoryLe(a, c)
    {
      KeyThenStrLeTrans(a.1.ordem, a.1.nome, b.1.ordem, b.1.nome, c.1.ordem, c.1.nome);
    }
  }

  predicate ActiveCategory(row: (int, Category)) { row.1.ativo }

  /** GET /api/categorias: the active categories by `ordem`, then name. */
  function CategoryList(rows: seq<(int, Category)>): seq<(int, Category)> {
    SortBy(Where(rows, ActiveCategory), CategoryLe)
  }

  lemma CategoryListSpec(rows: seq<(int, Category)>)
    ensures forall row :: row in CategoryList(rows) <==> row in rows && row.1.ativo
    ensures multiset(CategoryList(rows)) == multiset(Where(rows, ActiveCategory))
    ensures SortedBy(CategoryList(rows), CategoryLe)
    ensures forall i, j :: 0 <= i < j < |CategoryList(rows)| ==> CategoryList(rows)[i].1.ordem <= CategoryList(rows)[j].1.ordem
  {
    CategoryLeTotal();
    SelectSpec(rows, ActiveCategory, CategoryLe);
  }

  // ---------------------------------------------------------------- the menu

  /** One section of the menu: a category and its products. */
  datatype MenuSection = MenuSection(id: int, categoria: Category, produtos: seq<(int, Product)>)

  /** `ORDER BY nome`. */
  predicate NameLe(a: (int, Product), b: (int, Product)) {
    StrLe(a.1.nome, b.1.nome)
  }

  lemma NameLeTotal()
    ensures TotalPreorder(NameLe)
  {
    forall a: (int, Product), b: (int, Product) ensures NameLe(a, b) || NameLe(b, a) {
      StrLeTotal(a.1.nome, b.1.nome);
    }
    forall a: (int, Product), b: (int, Product), c: (int, Product) | NameLe(a, b) && NameLe(b, c)
      ensures NameLe(a, c)
    {
      StrLeTrans(a.1.nome, b.1.nome, c.1.nome);
    }
  }

  predicate ActiveProduct(row: (int, Product)) { row.1.ativo }

  /** The active products by name. */
  function MenuProducts(productRows: seq<(int, Product)>): seq<(int, Product)> {
    SortBy(Where(productRows, ActiveProduct), NameLe)
  }

  /** The products of one category, in the order of `prods`. */
  function SectionOf(id: int, categoria: Category, prods: seq<(int, Product)>): MenuSection {
    MenuSection(id, categoria, Where(prods, (row: (int, Product)) => row.1.categoria == Some(id)))
  }

  /**
   * GET /api/produtos/cardapio: the active categories in list order, each
   * with the active products (by name) whose `categoria_id` is that category.
   */
  function Menu(categoryRows: seq<(int, Category)>, productRows: seq<(int, Product)>): (menu: seq<MenuSection>)
    ensures |menu| == |CategoryList(categoryRows)|
  {
    var cats := CategoryList(categoryRows);
    var prods := MenuProducts(productRows);
    seq(|cats|, i requires 0 <= i < |cats| => SectionOf(cats[i].0, cats[i].1, prods))
  }

  /** A section lists exactly the active products of its category, sorted by name. */
  lemma SectionSpec(id: int, categoria: Category, productRows: seq<(int, Product)>)
    ensures forall row :: row in SectionOf(id, categoria, MenuProducts(productRows)).produtos <==>
      row in productRows && row.1.ativo && row.1.categoria == Some(id)
  {
    NameLeTotal();
    SelectSpec(productRows, ActiveProduct, NameLe);
    WhereSpec(MenuProducts(productRows), (row: (int, Product)) => row.1.categoria == Some(id));
  }

  /**
   * The menu's sections are the active categories, each exactly once, and a
   * section lists exactly the active products of its category; so a product
   * with no category, or whose category is inactive, is on no section.
   */
  lemma MenuSpec(categoryRows: seq<(int, Category)>, productRows: seq<(int, Product)>, i: int)
    requires 0 <= i < |Menu(categoryRows, productRows)|
    ensures var s := Menu(categoryRows, productRows)[i];
      && (s.id, s.categoria) in categoryRows && s.categoria.ativo
      && forall row :: row in s.produtos <==> row in productRows && row.1.ativo && row.1.categoria == Some(s.id)
  {
    CategoryListSpec(categoryRows);
    var c := CategoryList(categoryRows)[i];
    assert c in CategoryList(categoryRows);
    SectionSpec(c.0, c.1, productRows);
  }

  /** Every active category has a section. */
  lemma MenuCoversCategories(categoryRows: seq<(int, Category)>, productRows: seq<(int, Product)>, id: int, c: Category)
    requires (id, c) in categoryRows && c.ativo
    ensures exists i :: 0 <= i < |Menu(categoryRows, productRows)| &&
                        Menu(categoryRows, productRows)[i].id == id && Menu(categoryRows, productRows)[i].categoria == c
  {
    CategoryListSpec(categoryRows);
    var cats := CategoryList(categoryRows);
    var i :| 0 <= i < |cats| && cats[i] == (id, c);
    assert Menu(categoryRows, productRows)[i].id == id;
  }
}
