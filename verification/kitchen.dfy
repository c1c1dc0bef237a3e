/**
 * The kitchen display: the server groups the pending and preparing items of
 * the open orders by order, and the kitchen screen shows those orders,
 * flags the ones waiting too long, counts the items per status, and updates
 * its list as the cooks move items along.
 */
module Kitchen {
  import opened Common
  import opened Sorting

  /** An item as the kitchen list carries it; `espera` is its waiting time in whole minutes. */
  datatype KitchenItem = KitchenItem(id: int, produto: string, quantidade: int, observacao: Option<string>,
                                     status: string, espera: int)

  /** An order of the kitchen list with its items; `mesa` is the table's `numero` text, NULL for a counter order. */
  datatype KitchenOrder = KitchenOrder(id: int, mesa: Option<string>, tipo: string, itens: seq<KitchenItem>)

  /** One row of the kitchen query: an item with the order it belongs to, oldest item first. */
  datatype KitchenRow = KitchenRow(pedido: int, mesa: Option<string>, tipo: string, item: KitchenItem)

  // ---------------------------------------------------------------- grouping by order (server)

  /** The orders of the rows, each once, in the order of their first row. */
  function OrderIds(rows: seq<KitchenRow>): seq<int>
    decreases |rows|
  {
    if rows == [] then []
    else
      var prev := OrderIds(rows[..|rows| - 1]);
      if rows[|rows| - 1].pedido in prev then prev else prev + [rows[|rows| - 1].pedido]
  }

  /** Every order with a row is listed, nothing else is, and no order twice. */
  lemma {:induction false} OrderIdsSpec(rows: seq<KitchenRow>)
    ensures forall pid :: pid in OrderIds(rows) <==> exists j :: 0 <= j < |rows| && rows[j].pedido == pid
    ensures forall a, b :: 0 <= a < b < |OrderIds(rows)| ==> OrderIds(rows)[a] != OrderIds(rows)[b]
    decreases |rows|
  {
    if rows != [] {
      var prefix := rows[..|rows| - 1];
      OrderIdsSpec(prefix);
      forall pid ensures pid in OrderIds(rows) <==> exists j :: 0 <= j < |rows| && rows[j].pedido == pid {
        if exists j :: 0 <= j < |rows| && rows[j].pedido == pid {
          var j :| 0 <= j < |rows| && rows[j].pedido == pid;
          if j < |rows| - 1 {
            assert prefix[j] == rows[j];
          }
        }
        if pid in OrderIds(prefix) {
          var j :| 0 <= j < |prefix| && prefix[j].pedido == pid;
          assert rows[j] == prefix[j];
        }
      }
    }
  }

  /** The items of one order, in row order. */
  function ItemsFor(rows: seq<KitchenRow>, pid: int): seq<KitchenItem>
    decreases |rows|
  {
    if rows == [] then []
    else ItemsFor(rows[..|rows| - 1], pid) + (if rows[|rows| - 1].pedido == pid then [rows[|rows| - 1].item] else [])
  }

  /** An order's items are exactly the items of its rows. */
  lemma {:induction false} ItemsForSpec(rows: seq<KitchenRow>, pid: int)
    ensures forall it :: it in ItemsFor(rows, pid) <==> exists j :: 0 <= j < |rows| && rows[j].pedido == pid && rows[j].item == it
    decreases |rows|
  {
    if rows != [] {
      var prefix := rows[..|rows| - 1];
      ItemsForSpec(prefix, pid);
      forall it ensures it in ItemsFor(rows, pid) <==> exists j :: 0 <= j < |rows| && rows[j].pedido == pid && rows[j].item == it {
        if exists j :: 0 <= j < |rows| && rows[j].pedido == pid && rows[j].item == it {
          var j :| 0 <= j < |rows| && rows[j].pedido == pid && rows[j].item == it;
          if j < |rows| - 1 {
            assert prefix[j] == rows[j];
          }
        }
        if it in ItemsFor(prefix, pid) {
          var j :| 0 <= j < |prefix| && prefix[j].pedido == pid && prefix[j].item == it;
          assert rows[j] == prefix[j];
        }
      }
    }
  }

  /** An order has as many items as it has rows, and an order without rows has none. */
  lemma {:induction false} ItemsForCount(rows: seq<KitchenRow>, pid: int)
    ensures |ItemsFor(rows, pid)| == |Where(rows, (r: KitchenRow) => r.pedido == pid)|
    ensures pid !in OrderIds(rows) ==> ItemsFor(rows, pid) == []
    decreases |rows|
  {
    if rows != [] {
      var prefix := rows[..|rows| - 1];
      ItemsForCount(prefix, pid);
      assert rows == prefix + [rows[|rows| - 1]];
      WhereAppend(prefix, rows[|rows| - 1], (r: KitchenRow) => r.pedido == pid);
    }
  }

  /** The row that first names an order: its table and type head the group. */
  function FirstRow(rows: seq<KitchenRow>, pid: int): KitchenRow
    requires pid in OrderIds(rows)
    decreases |rows|
  {
    var prefix := rows[..|rows| - 1];
    if pid in OrderIds(prefix) then FirstRow(prefix, pid) else rows[|rows| - 1]
  }

  /** The first row of an order is a row of that order, and no earlier row is. */
  lemma {:induction false} FirstRowSpec(rows: seq<KitchenRow>, pid: int)
    requires pid in OrderIds(rows)
    ensures exists j ::
      0 <= j < |rows| && rows[j] == FirstRow(rows, pid) && rows[j].pedido == pid && (forall j' :: 0 <= j' < j ==> rows[j'].pedido != pid)
    decreases |rows|
  {
    var prefix := rows[..|rows| - 1];
    OrderIdsSpec(prefix);
    if pid in OrderIds(prefix) {
      FirstRowSpec(prefix, pid);
      var j :| 0 <= j < |prefix| && prefix[j] == FirstRow(prefix, pid) && prefix[j].pedido == pid &&
        (forall j' :: 0 <= j' < j ==> prefix[j'].pedido != pid);
      assert rows[j] == prefix[j];
      forall j' | 0 <= j' < j ensures rows[j'].pedido != pid {
        assert rows[j'] == prefix[j'];
      }
    } else {
      var j := |rows| - 1;
      forall j' | 0 <= j' < j ensures rows[j'].pedido != pid {
        assert rows[j'] == prefix[j'];
      }
    }
  }

  /** `totalItens`: the items of all orders. */
  function TotalItems(ps: seq<KitchenOrder>): nat {
    if ps == [] then 0 else |ps[0].itens| + TotalItems(ps[1..])
  }

  lemma {:induction false} TotalItemsAppend(ps: seq<KitchenOrder>, p: KitchenOrder)
    ensures TotalItems(ps + [p]) == TotalItems(ps) + |p.itens|
    decreases |ps|
  {
    if ps != [] {
      assert (ps + [p])[1..] == ps[1..] + [p];
      TotalItemsAppend(ps[1..], p);
    }
  }

  lemma {:induction false} TotalItemsUpdate(ps: seq<KitchenOrder>, k: nat, p: KitchenOrder)
    requires k < |ps|
    ensures TotalItems(ps[k := p]) == TotalItems(ps) - |ps[k].itens| + |p.itens|
    decreases k
  {
    if k > 0 {
      assert ps[k := p][1..] == ps[1..][k - 1 := p];
      TotalItemsUpdate(ps[1..], k - 1, p);
    }
  }

  /**
   * `groups` is the grouping of `rows`: one entry per order, in the order of
   * its first row, headed by that row's table and type, with the order's
   * items in row order.
   */
  predicate GroupedAs(rows: seq<KitchenRow>, groups: seq<KitchenOrder>) {
    && |groups| == |OrderIds(rows)|
    && forall k :: 0 <= k < |groups| ==>
      && groups[k].id == OrderIds(rows)[k]
      && groups[k].itens == ItemsFor(rows, groups[k].id)
      && groups[k].mesa == FirstRow(rows, groups[k].id).mesa
      && groups[k].tipo == FirstRow(rows, groups[k].id).tipo
  }

  /** The grouping so far, with the `Map` from each order to the position of its entry. */
  ghost predicate Indexed(rows: seq<KitchenRow>, groups: seq<KitchenOrder>, index: map<int, nat>) {
    && GroupedAs(rows, groups)
    && (forall pid :: pid in index <==> pid in OrderIds(rows))
    && (forall pid :: pid in index ==> index[pid] < |groups| && groups[index[pid]].id == pid)
  }

  /** One more row of an order already known: its item joins that order's entry. */
  lemma GroupKnown(rows: seq<KitchenRow>, i: nat, groups: seq<KitchenOrder>, index: map<int, nat>)
    requires i < |rows| && Indexed(rows[..i], groups, index) && rows[i].pedido in index
    ensures var k := index[rows[i].pedido];
      Indexed(rows[..i + 1], groups[k := groups[k].(itens := groups[k].itens + [rows[i].item])], index)
  {
    var prefix, next := rows[..i], rows[..i + 1];
    assert next[..i] == prefix && next[i] == rows[i];
    OrderIdsSpec(prefix);
    var k := index[rows[i].pedido];
    var g := groups[k := groups[k].(itens := groups[k].itens + [rows[i].item])];
    assert OrderIds(next) == OrderIds(prefix);
    forall m | 0 <= m < |g|
      ensures g[m].id == OrderIds(next)[m]
      ensures g[m].itens == ItemsFor(next, g[m].id)
      ensures g[m].mesa == FirstRow(next, g[m].id).mesa && g[m].tipo == FirstRow(next, g[m].id).tipo
    {
      assert groups[m].id in OrderIds(prefix);
    }
  }

  /** A row of an order not seen yet: a new entry for it goes at the end. */
  lemma GroupNew(rows: seq<KitchenRow>, i: nat, groups: seq<KitchenOrder>, index: map<int, nat>)
    requires i < |rows| && Indexed(rows[..i], groups, index) && rows[i].pedido !in index
    ensures Indexed(rows[..i + 1], groups + [KitchenOrder(rows[i].pedido, rows[i].mesa, rows[i].tipo, [rows[i].item])],
                    index[rows[i].pedido := |groups|])
  {
    var prefix, next := rows[..i], rows[..i + 1];
    assert next[..i] == prefix && next[i] == rows[i];
    ItemsForCount(prefix, rows[i].pedido);
    var g := groups + [KitchenOrder(rows[i].pedido, rows[i].mesa, rows[i].tipo, [rows[i].item])];
    assert OrderIds(next) == OrderIds(prefix) + [rows[i].pedido];
    forall m | 0 <= m < |g|
      ensures g[m].id == OrderIds(next)[m]
      ensures g[m].itens == ItemsFor(next, g[m].id)
      ensures g[m].mesa == FirstRow(next, g[m].id).mesa && g[m].tipo == FirstRow(next, g[m].id).tipo
    {
      if m < |groups| {
        assert g[m] == groups[m] && groups[m].id in OrderIds(prefix);
      }
    }
  }

  /**
   * The `forEach` callback of the kitchen route: the row's order gets an
   * entry (headed by this row) the first time it is seen, then the row's
   * item is pushed onto that entry.
   */
  method AddRow(rows: seq<KitchenRow>, i: nat, groups: seq<KitchenOrder>, index: map<int, nat>)
    returns (groups': seq<KitchenOrder>, index': map<int, nat>)
    requires i < |rows| && Indexed(rows[..i], groups, index)
    ensures Indexed(rows[..i + 1], groups', index')
    ensures TotalItems(groups') == TotalItems(groups) + 1
  {
    var r := rows[i];
    if r.pedido !in index {
      var g := KitchenOrder(r.pedido, r.mesa, r.tipo, [r.item]);
      GroupNew(rows, i, groups, index);
      TotalItemsAppend(groups, g);
      index' := index[r.pedido := |groups|];
      groups' := groups + [g];
    } else {
      var k := index[r.pedido];
      var g := groups[k].(itens := groups[k].itens + [r.item]);
      GroupKnown(rows, i, groups, index);
      TotalItemsUpdate(groups, k, g);
      index' := index;
      groups' := groups[k := g];
    }
  }

  /**
   * The kitchen route's grouping: one entry per order, in the order of its
   * oldest item, headed by that order's table and type, holding every item
   * of the order in row order; no row is lost or counted twice.
   */
  method GroupOrders(rows: seq<KitchenRow>) returns (groups: seq<KitchenOrder>)
    ensures GroupedAs(rows, groups)
    ensures TotalItems(groups) == |rows|
  {
    groups := [];
    var index: map<int, nat> := map[];
    var i := 0;
    while i < |rows|
      invariant 0 <= i <= |rows|
      invariant Indexed(rows[..i], groups, index)
      invariant TotalItems(groups) == i
    {
      groups, index := AddRow(rows, i, groups, index);
      i := i + 1;
    }
    assert rows[..|rows|] == rows;
  }

  // ---------------------------------------------------------------- urgency (screen)

  /** An item is urgent once it has waited more than 15 minutes. */
  predicate ItemUrgent(i: KitchenItem) {
    i.espera > 15
  }

  /** `Math.max` of the items' waiting times. */
  function MaxWait(itens: seq<KitchenItem>): (m: int)
    requires itens != []
    ensures forall j :: 0 <= j < |itens| ==> itens[j].espera <= m
    ensures exists j :: 0 <= j < |itens| && itens[j].espera == m
  {
    if |itens| == 1 then itens[0].espera
    else
      var rest := MaxWait(itens[1..]);
      assert forall j :: 1 <= j < |itens| ==> itens[j] == itens[1..][j - 1];
      Max(itens[0].espera, rest)
  }

  /** An order is urgent when its longest wait exceeds 20 minutes (`Math.max` of nothing never does). */
  predicate OrderUrgent(p: KitchenOrder) {
    p.itens != [] && MaxWait(p.itens) > 20
  }

  /** An order is urgent exactly when one of its items has waited more than 20 minutes, and then that item is urgent too. */
  lemma OrderUrgentSpec(p: KitchenOrder)
    ensures OrderUrgent(p) <==> exists j :: 0 <= j < |p.itens| && p.itens[j].espera > 20
    ensures OrderUrgent(p) ==> exists j :: 0 <= j < |p.itens| && ItemUrgent(p.itens[j])
  {
  }

  // ---------------------------------------------------------------- local list updates (screen)

  /** The orders with one item taken out of one order. */
  function WithoutItem(ps: seq<KitchenOrder>, pid: int, itemId: int): (r: seq<KitchenOrder>)
    ensures |r| == |ps|
    ensures forall k :: 0 <= k < |r| ==> r[k].id == ps[k].id && r[k].mesa == ps[k].mesa && r[k].tipo == ps[k].tipo
    ensures forall k :: 0 <= k < |r| ==>
      r[k].itens == (if ps[k].id == pid then Where(ps[k].itens, (i: KitchenItem) => i.id != itemId) else ps[k].itens)
  {
    seq(|ps|, k requires 0 <= k < |ps| =>
      ps[k].(itens := if ps[k].id == pid then Where(ps[k].itens, (i: KitchenItem) => i.id != itemId) else ps[k].itens))
  }

  /** After a successful `pronto`: the item leaves its order and orders left without items leave the screen. */
  function MarkReady(ps: seq<KitchenOrder>, pid: int, itemId: int): seq<KitchenOrder> {
    Where(WithoutItem(ps, pid, itemId), (p: KitchenOrder) => |p.itens| > 0)
  }

  /**
   * After `pronto` every order left has items, and the order the item came
   * from is the old order without that item (so none of its items has that
   * id any more, and all its other items stay in order).
   */
  lemma MarkReadyItem(ps: seq<KitchenOrder>, pid: int, itemId: int)
    ensures forall q :: q in MarkReady(ps, pid, itemId) ==> |q.itens| > 0
    ensures forall q :: q in MarkReady(ps, pid, itemId) && q.id == pid ==>
      && (forall j :: 0 <= j < |q.itens| ==> q.itens[j].id != itemId)
      && exists p :: p in ps && p.id == pid && q == p.(itens := Where(p.itens, (i: KitchenItem) => i.id != itemId))
  {
    var w := WithoutItem(ps, pid, itemId);
    WhereSpec(w, (p: KitchenOrder) => |p.itens| > 0);
    forall q | q in MarkReady(ps, pid, itemId) && q.id == pid
      ensures forall j :: 0 <= j < |q.itens| ==> q.itens[j].id != itemId
      ensures exists p :: p in ps && p.id == pid && q == p.(itens := Where(p.itens, (i: KitchenItem) => i.id != itemId))
    {
      var k :| 0 <= k < |w| && w[k] == q;
      WhereSpec(ps[k].itens, (i: KitchenItem) => i.id != itemId);
      assert forall j :: 0 <= j < |q.itens| ==> q.itens[j] in q.itens;
      assert ps[k] in ps;
    }
  }

  /** After `pronto` every other order with items stays exactly as it was, and no other order appears. */
  lemma MarkReadyOthers(ps: seq<KitchenOrder>, pid: int, itemId: int)
    ensures forall p :: p in ps && p.id != pid && |p.itens| > 0 ==> p in MarkReady(ps, pid, itemId)
    ensures forall q :: q in MarkReady(ps, pid, itemId) && q.id != pid ==> q in ps
  {
    var w := WithoutItem(ps, pid, itemId);
    WhereSpec(w, (p: KitchenOrder) => |p.itens| > 0);
    forall p | p in ps && p.id != pid && |p.itens| > 0 ensures p in MarkReady(ps, pid, itemId) {
      var k :| 0 <= k < |ps| && ps[k] == p;
      assert w[k] == p;
    }
    forall q | q in MarkReady(ps, pid, itemId) && q.id != pid ensures q in ps {
      var k :| 0 <= k < |w| && w[k] == q;
      assert ps[k] == q;
    }
  }

  /** After any other status: that item of that order takes the new status, and nothing else changes. */
  function SetItemStatus(ps: seq<KitchenOrder>, pid: int, itemId: int, status: string): (r: seq<KitchenOrder>)
    ensures |r| == |ps|
    ensures forall k :: 0 <= k < |r| ==>
      && r[k].(itens := ps[k].itens) == ps[k]
      && |r[k].itens| == |ps[k].itens|
      && forall j :: 0 <= j < |r[k].itens| ==>
           r[k].itens[j] == (if ps[k].id == pid && ps[k].itens[j].id == itemId then ps[k].itens[j].(status := status)
                             else ps[k].itens[j])
  {
    seq(|ps|, k requires 0 <= k < |ps| =>
      ps[k].(itens := if ps[k].id == pid then WithStatus(ps[k].itens, itemId, status) else ps[k].itens))
  }

  function WithStatus(itens: seq<KitchenItem>, itemId: int, status: string): (r: seq<KitchenItem>)
    ensures |r| == |itens|
    ensures forall j :: 0 <= j < |r| ==> r[j] == (if itens[j].id == itemId then itens[j].(status := status) else itens[j])
  {
    seq(|itens|, j requires 0 <= j < |itens| => if itens[j].id == itemId then itens[j].(status := status) else itens[j])
  }

  /** A status change keeps every order and every item on the screen. */
  lemma {:induction false} SetItemStatusKeepsItems(ps: seq<KitchenOrder>, pid: int, itemId: int, status: string)
    ensures TotalItems(SetItemStatus(ps, pid, itemId, status)) == TotalItems(ps)
    decreases |ps|
  {
    if ps != [] {
      var r := SetItemStatus(ps, pid, itemId, status);
      assert r[1..] == SetItemStatus(ps[1..], pid, itemId, status);
      SetItemStatusKeepsItems(ps[1..], pid, itemId, status);
    }
  }

  // ---------------------------------------------------------------- counters (screen)

  /** `itensPendentes` / `itensPreparando`: the items in one status across all orders. */
  function CountStatus(ps: seq<KitchenOrder>, status: string): nat {
    if ps == [] then 0
    else |Where(ps[0].itens, (i: KitchenItem) => i.status == status)| + CountStatus(ps[1..], status)
  }

  /** Items that are each pending or preparing: the two counters add up to the item count. */
  lemma {:induction false} CountersCoverAll(ps: seq<KitchenOrder>)
    requires forall k, j :: 0 <= k < |ps| && 0 <= j < |ps[k].itens| ==>
      ps[k].itens[j].status == "pendente" || ps[k].itens[j].status == "preparando"
    ensures CountStatus(ps, "pendente") + CountStatus(ps, "preparando") == TotalItems(ps)
    decreases |ps|
  {
    if ps != [] {
      WherePartition(ps[0].itens, (i: KitchenItem) => i.status == "pendente", (i: KitchenItem) => i.status == "preparando");
      assert forall k, j :: 0 <= k < |ps[1..]| && 0 <= j < |ps[1..][k].itens| ==> ps[1..][k].itens[j] == ps[k + 1].itens[j];
      CountersCoverAll(ps[1..]);
    }
  }

  /** Rows split between two exclusive conditions that together cover every row. */
  lemma {:induction false} WherePartition<T>(s: seq<T>, a: T -> bool, b: T -> bool)
    requires forall j :: 0 <= j < |s| ==> a(s[j]) != b(s[j])
    ensures |Where(s, a)| + |Where(s, b)| == |s|
    decreases |s|
  {
    if s != [] {
      WherePartition(s[1..], a, b);
    }
  }

  // ---------------------------------------------------------------- the screen's state

  /** The kitchen screen: the orders shown, whether the first load is pending, and the items whose update is in flight. */
  class KitchenScreen {
    var pedidos: seq<KitchenOrder>
    var loading: bool
    var updating: set<int>

    /** The first render: nothing shown, loading, nothing in flight. */
    constructor ()
      ensures pedidos == [] && loading && updating == {}
    {
      pedidos := [];
      loading := true;
      updating := {};
    }

    /** `pendentes` in the header. */
    function Pending(): nat
      reads this
    {
      CountStatus(pedidos, "pendente")
    }

    /** `preparando` in the header. */
    function Preparing(): nat
      reads this
    {
      CountStatus(pedidos, "preparando")
    }

    /** `carregarPedidos`: the list replaces the old one when it arrives, a failed load keeps the old one; loading ends either way. */
    method Loaded(data: Option<seq<KitchenOrder>>)
      modifies this`pedidos, this`loading
      ensures pedidos == (if data.Some? then data.value else old(pedidos))
      ensures !loading
    {
      if data.Some? {
        pedidos := data.value;
      }
      loading := false;
    }

    /**
     * The start of `handleItemStatusChange`: a click on an item whose update
     * is still in flight is ignored; otherwise the item joins the in-flight
     * set and the request is sent.
     */
    method BeginStatusChange(itemId: int) returns (sent: bool)
      modifies this`updating
      ensures sent <==> itemId !in old(updating)
      ensures updating == old(updating) + {itemId}
    {
      if itemId in updating {
        return false;
      }
      updating := updating + {itemId};
      return true;
    }

    /**
     * The end of `handleItemStatusChange`: on success the list is updated
     * locally (`pronto` removes the item, any other status is set on it), on
     * failure the list stays and a reload is asked for; either way the item
     * leaves the in-flight set.
     */
    method FinishStatusChange(pid: int, itemId: int, status: string, ok: bool) returns (reload: bool)
      modifies this`pedidos, this`updating
      ensures reload <==> !ok
      ensures ok && status == "pronto" ==> pedidos == MarkReady(old(pedidos), pid, itemId)
      ensures ok && status != "pronto" ==> pedidos == SetItemStatus(old(pedidos), pid, itemId, status)
      ensures !ok ==> pedidos == old(pedidos)
      ensures updating == old(updating) - {itemId}
    {
      if ok {
        if status == "pronto" {
          pedidos := MarkReady(pedidos, pid, itemId);
        } else {
          pedidos := SetItemStatus(pedidos, pid, itemId, status);
        }
      }
      updating := updating - {itemId};
      reload := !ok;
    }
  }
}
