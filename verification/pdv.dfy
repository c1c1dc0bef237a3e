/**
 * The order-entry screen: the quantity and note dialog shown before an item
 * is added, the quantity buttons of an item already on the order (a removal
 * followed by a fresh add on the server), and the product grid filtered by
 * category or by a search over the whole menu.
 */
module Pdv {
  import opened Common
  import opened Schema
  import opened Text
  import opened Sorting
  import opened Ledger
  import Orders
  import Catalog

  // ---------------------------------------------------------------- the quantity and note dialog

  /**
   * `Math.max(1, parseInt(value) || 1)` for the number typed: a result of
   * 1 or more as typed, anything else (0, negative, not a number) becomes 1.
   * `parsed` is what `parseInt` made of the text, `None` for `NaN`.
   */
  function TypedQuantity(parsed: Option<int>): (q: int)
    ensures q >= 1
    ensures parsed.Some? && parsed.value >= 1 ==> q == parsed.value
    ensures parsed.None? || parsed.value < 1 ==> q == 1
  {
    Max(1, if TruthyInt(parsed) then parsed.value else 1)
  }

  /** The longest note the dialog keeps. */
  const NoteLimit := 200

  /** `value.slice(0, 200)`. */
  function TruncateNote(s: string): (r: string)
    ensures |r| == Min(|s|, NoteLimit) && r == s[..|r|]
  {
    if |s| <= NoteLimit then s else s[..NoteLimit]
  }

  /** A note already within the limit is kept whole, so truncating twice is truncating once. */
  lemma TruncateNoteIdempotent(s: string)
    ensures |s| <= NoteLimit ==> TruncateNote(s) == s
    ensures TruncateNote(TruncateNote(s)) == TruncateNote(s)
  {
  }

  /** The dialog's state: the quantity (never below 1) and the note (never over the limit). */
  class QuantityDialog {
    var quantidade: int
    var observacao: string

    predicate Valid()
      reads this
    {
      quantidade >= 1 && |observacao| <= NoteLimit
    }

    /** The dialog opens with quantity 1 and no note. */
    constructor ()
      ensures Valid() && quantidade == 1 && observacao == ""
    {
      quantidade := 1;
      observacao := "";
    }

    /** `handleQuantidadeChange`. */
    method TypeQuantity(parsed: Option<int>)
      requires Valid()
      modifies this`quantidade
      ensures Valid() && quantidade == TypedQuantity(parsed)
    {
      quantidade := TypedQuantity(parsed);
    }

    /** The minus button: one less, but never below 1. */
    method Decrement()
      requires Valid()
      modifies this`quantidade
      ensures Valid()
      ensures old(quantidade) > 1 ==> quantidade == old(quantidade) - 1
      ensures old(quantidade) == 1 ==> quantidade == 1
    {
      quantidade := Max(1, quantidade - 1);
    }

    /** The plus button. */
    method Increment()
      requires Valid()
      modifies this`quantidade
      ensures Valid() && quantidade == old(quantidade) + 1
    {
      quantidade := quantidade + 1;
    }

    /** Typing in the note box keeps the first 200 characters. */
    method TypeNote(text: string)
      requires Valid()
      modifies this`observacao
      ensures Valid() && observacao == TruncateNote(text)
    {
      observacao := TruncateNote(text);
    }

    /**
     * The confirm button (never disabled, since the quantity never drops
     * below 1) submits `Math.max(1, quantidade)`, which is the quantity
     * shown, and the note.
     */
    method Confirm() returns (q: int, note: string)
      requires Valid()
      ensures q == quantidade && q >= 1 && note == observacao && |note| <= NoteLimit
    {
      q := Max(1, quantidade);
      note := observacao;
    }
  }

  // ---------------------------------------------------------------- changing the quantity of an item on the order

  /** How a quantity button on an item ends. */
  datatype QtyOutcome =
    | ConfirmRemoval                        // the new quantity is 0 or less: the removal dialog opens instead
    | RemoveFailed(error: Orders.OrderError)
    | AddFailed(error: Orders.OrderError)    // the old row is already gone
    | Updated(item: Item)

  /**
   * `handleUpdateQtd`: a new quantity of 0 or less opens the removal dialog
   * and changes nothing. Otherwise the item's row is deleted (its stock
   * goes back) and a new row is added for the same product and note with
   * the new quantity, at the product's current name and price. When the add
   * is refused, the old row stays deleted.
   */
  method UpdateQuantity(db: Database, dep: Deployment, oid: int, item: Item, delta: int) returns (out: QtyOutcome)
    requires db.Valid()
    modifies db`products, db`items, db`nextItem, db`orders
    ensures db.Valid()
    ensures out == ConfirmRemoval <==> item.quantidade + delta <= 0
    ensures out.RemoveFailed? <==> item.quantidade + delta > 0 && FindRow(old(db.items), item.id, oid).None?
    ensures out == ConfirmRemoval || out.RemoveFailed? ==> unchanged(db)
    ensures out.AddFailed? || out.Updated? ==> FindRow(old(db.items), item.id, oid).Some?
    ensures out.AddFailed? ==> db.items == RemoveRows(old(db.items), item.id, oid)
    ensures out.AddFailed? || out.Updated? ==>
      var row := FindRow(old(db.items), item.id, oid).value;
      var credited := Credit(old(db.products), row.produto, row.quantidade);
      && (out.AddFailed? ==>
            && Some(out.error) == Orders.CheckAddItem(credited, item.produto, Defined(Some(item.quantidade + delta)))
            && db.products == credited
            && db.orders == Recalc(old(db.orders), db.items, oid))
      && (out.Updated? ==>
            && Orders.CheckAddItem(credited, item.produto, Defined(Some(item.quantidade + delta))).None?
            && db.products == Debit(credited, item.produto.value, item.quantidade + delta)
            && db.orders == StartProduction(Recalc(old(db.orders), db.items, oid), oid))
    ensures out.Updated? ==>
      && db.items == RemoveRows(old(db.items), item.id, oid) + [out.item]
      && out.item.pedido == oid && out.item.produto == item.produto
      && out.item.quantidade == item.quantidade + delta
      && out.item.observacao == StoredText(dep, item.observacao)
      && out.item.status == Pendente
  {
    var novaQtd := item.quantidade + delta;
    if novaQtd <= 0 {
      return ConfirmRemoval;
    }
    var removed := Orders.RemoveItem(db, oid, item.id);
    if removed.Err? {
      return RemoveFailed(removed.error);
    }
    ghost var itemsAfterRemoval := db.items;
    var added := Orders.AddItem(db, dep, oid, item.produto, Defined(Some(novaQtd)), item.observacao);
    if added.Err? {
      return AddFailed(added.error);
    }
    RecalcTwice(old(db.orders), itemsAfterRemoval, db.items, oid);
    return Updated(added.value);
  }

  /**
   * The net effect of a quantity change on the product table, when the row
   * still holds the quantity the screen shows: the product's stock moves by
   * exactly `-delta` when it is tracked, and no other product changes.
   */
  lemma QuantityChangeStock(products: map<int, Product>, item: Item, delta: int)
    requires TruthyInt(item.produto)
    requires item.produto.value in Credit(products, item.produto, item.quantidade)
    ensures Debit(Credit(products, item.produto, item.quantidade), item.produto.value, item.quantidade + delta).Keys == products.Keys
    ensures forall k :: k in products ==>
              Debit(Credit(products, item.produto, item.quantidade), item.produto.value, item.quantidade + delta)[k]
              == if item.produto == Some(k) && products[k].estoque.Some?
                 then products[k].(estoque := Some(products[k].estoque.value - delta))
                 else products[k]
  {
    var pid := item.produto.value;
    CreditThenDebit(products, pid, item.quantidade, item.quantidade + delta);
    var after := Debit(Credit(products, item.produto, item.quantidade), pid, item.quantidade + delta);
    forall k | k in products
      ensures after[k] == (if products[k].estoque.Some? && item.produto == Some(k)
                           then products[k].(estoque := Some(products[k].estoque.value - delta))
                           else products[k])
    {
      if k == pid && products[k].estoque.Some? {
        assert products[k].estoque.value + item.quantidade - (item.quantidade + delta)
               == products[k].estoque.value - delta;
      }
    }
  }

  // ---------------------------------------------------------------- the product grid

  /** `cardapio.find(c => c.id === categoriaSelecionada)`: the first section of that category; nothing is selected at first. */
  function FindSection(menu: seq<Catalog.MenuSection>, selected: Option<int>): (r: Option<Catalog.MenuSection>)
    ensures r.Some? ==> r.value in menu && selected == Some(r.value.id)
    ensures r.None? <==> forall k :: 0 <= k < |menu| ==> selected != Some(menu[k].id)
  {
    if menu == [] then None
    else if selected == Some(menu[0].id) then Some(menu[0])
    else
      var r := FindSection(menu[1..], selected);
      assert forall k :: 1 <= k < |menu| ==> menu[k] == menu[1..][k - 1];
      r
  }

  /** The search's `flatMap`: the products of every section whose name contains the term, ignoring case. */
  function SearchHits(menu: seq<Catalog.MenuSection>, busca: string): seq<(int, Product)> {
    if menu == [] then []
    else Where(menu[0].produtos, (row: (int, Product)) => ContainsIgnoreCase(row.1.nome, busca)) + SearchHits(menu[1..], busca)
  }

  /** A product is a hit exactly when some section lists it and its name contains the term. */
  lemma {:induction false} SearchHitsSpec(menu: seq<Catalog.MenuSection>, busca: string)
    ensures forall row :: row in SearchHits(menu, busca) <==>
      (exists k :: 0 <= k < |menu| && row in menu[k].produtos) && ContainsIgnoreCase(row.1.nome, busca)
    decreases |menu|
  {
    if menu != [] {
      SearchHitsSpec(menu[1..], busca);
      WhereSpec(menu[0].produtos, (row: (int, Product)) => ContainsIgnoreCase(row.1.nome, busca));
      forall row {
        InSomeSection(menu, row);
      }
    }
  }

  /** Being listed in some section is being listed in the first or in some later one. */
  lemma InSomeSection(menu: seq<Catalog.MenuSection>, row: (int, Product))
    requires menu != []
    ensures (exists k :: 0 <= k < |menu| && row in menu[k].produtos) <==>
      row in menu[0].produtos || exists k :: 0 <= k < |menu[1..]| && row in menu[1..][k].produtos
  {
    if exists k :: 0 <= k < |menu| && row in menu[k].produtos {
      var k :| 0 <= k < |menu| && row in menu[k].produtos;
      if k > 0 {
        assert menu[1..][k - 1] == menu[k];
      }
    }
    if exists k :: 0 <= k < |menu[1..]| && row in menu[1..][k].produtos {
      var k :| 0 <= k < |menu[1..]| && row in menu[1..][k].produtos;
      assert menu[k + 1] == menu[1..][k];
    }
  }

  /** `produtosFiltrados`: with a search term, the hits over the whole menu; otherwise the selected section's products, or none. */
  function ShownProducts(menu: seq<Catalog.MenuSection>, busca: string, selected: Option<int>): seq<(int, Product)> {
    if busca != "" then SearchHits(menu, busca)
    else
      var s := FindSection(menu, selected);
      if s.Some? then s.value.produtos else []
  }

  /**
   * Over the menu the catalog route serves, a search shows exactly the
   * active products of active categories whose name contains the term,
   * whatever category is selected.
   */
  lemma SearchOverMenu(categoryRows: seq<(int, Category)>, productRows: seq<(int, Product)>, busca: string,
                       selected: Option<int>, row: (int, Product))
    requires busca != ""
    ensures row in ShownProducts(Catalog.Menu(categoryRows, productRows), busca, selected) <==>
      && row in productRows && row.1.ativo && row.1.categoria.Some?
      && (exists c :: (row.1.categoria.value, c) in categoryRows && c.ativo)
      && ContainsIgnoreCase(row.1.nome, busca)
  {
    var menu := Catalog.Menu(categoryRows, productRows);
    SearchHitsSpec(menu, busca);
    if row in ShownProducts(menu, busca, selected) {
      var k :| 0 <= k < |menu| && row in menu[k].produtos;
      Catalog.MenuSpec(categoryRows, productRows, k);
    }
    if && row in productRows && row.1.ativo && row.1.categoria.Some?
       && (exists c :: (row.1.categoria.value, c) in categoryRows && c.ativo)
       && ContainsIgnoreCase(row.1.nome, busca)
    {
      var c :| (row.1.categoria.value, c) in categoryRows && c.ativo;
      Catalog.MenuCoversCategories(categoryRows, productRows, row.1.categoria.value, c);
      var k :| 0 <= k < |menu| && menu[k].id == row.1.categoria.value && menu[k].categoria == c;
      Catalog.MenuSpec(categoryRows, productRows, k);
    }
  }

  /** Without a search term, the grid is the selected category's section, or empty when no section has that id. */
  lemma BrowseBySection(menu: seq<Catalog.MenuSection>, selected: Option<int>)
    ensures forall k :: 0 <= k < |menu| && selected == Some(menu[k].id) && (forall j :: 0 <= j < k ==> menu[j].id != menu[k].id) ==>
      ShownProducts(menu, "", selected) == menu[k].produtos
    ensures (forall k :: 0 <= k < |menu| ==> selected != Some(menu[k].id)) ==> ShownProducts(menu, "", selected) == []
  {
    forall k | 0 <= k < |menu| && selected == Some(menu[k].id) && (forall j :: 0 <= j < k ==> menu[j].id != menu[k].id)
      ensures ShownProducts(menu, "", selected) == menu[k].produtos
    {
      FindSectionFirst(menu, selected, k);
    }
  }

  lemma {:induction false} FindSectionFirst(menu: seq<Catalog.MenuSection>, selected: Option<int>, k: nat)
    requires k < |menu| && selected == Some(menu[k].id)
    requires forall j :: 0 <= j < k ==> menu[j].id != menu[k].id
    ensures FindSection(menu, selected) == Some(menu[k])
    decreases k
  {
    if k > 0 {
      FindSectionFirst(menu[1..], selected, k - 1);
    }
  }
}
