/** The order routes (`/api/order`): read a table's order, and merge requested
    menu items into it. */
module Orders {
  import opened Common
  import opened Store

  /** One element of the `items` array of a place-order request. */
  datatype OrderRequest = OrderRequest(id: int, quantity: int)

  /** GET `/api/order?table=`: the table's order; a table without a file reads
      as the empty default. */
  function GetOrder(tables: map<nat, TableOrder>, table: Option<nat>): (r: Result<TableOrder>)
    ensures !GivenTable(table) ==> r.Err? && r.error.status == 400
    ensures GivenTable(table) && table.value in tables ==> r == Ok(tables[table.value])
    ensures GivenTable(table) && table.value !in tables ==>
      r == Ok(TableOrder(table.value, "empty", [], 0.0, false))
  {
    if !GivenTable(table) then Err(BadRequest("Table number is required"))
    else Ok(TableOrEmpty(tables, table.value))
  }

  /** The record a place-order request starts from: a table without a file
      starts as an active order in state "ordering". */
  function StartingOrder(tables: map<nat, TableOrder>, t: nat): (r: TableOrder)
    ensures t in tables ==> r == tables[t]
    ensures t !in tables ==> r == TableOrder(t, "ordering", [], 0.0, true)
  {
    if t in tables then tables[t] else TableOrder(t, "ordering", [], 0.0, true)
  }

  /** Index of the first line with menu id `id` still in state 'ordered', or -1. */
  function FindOrderedLine(lines: seq<OrderLine>, id: int): (k: int)
    ensures -1 <= k < |lines|
    ensures k == -1 <==> forall i :: 0 <= i < |lines| ==> !(lines[i].id == id && lines[i].status == "ordered")
    ensures k >= 0 ==> lines[k].id == id && lines[k].status == "ordered"
    ensures k >= 0 ==> forall i :: 0 <= i < k ==> !(lines[i].id == id && lines[i].status == "ordered")
  {
    if lines == [] then -1
    else if lines[0].id == id && lines[0].status == "ordered" then 0
    else
      var k := FindOrderedLine(lines[1..], id);
      if k == -1 then -1 else k + 1
  }

  /** A request is applied only when its id names a menu item and the first
      item with that id is available. */
  predicate Accepted(menu: seq<MenuItem>, req: OrderRequest)
    ensures Accepted(menu, req) <==>
      exists k :: 0 <= k < |menu| && menu[k].id == req.id && menu[k].available &&
                  (forall i :: 0 <= i < k ==> menu[i].id != req.id)
  {
    var m := FindMenuItem(menu, req.id);
    m.Some? && m.value.available
  }

  /** The line a new request appends: the menu item's current name and price. */
  function Snapshot(m: MenuItem, quantity: int): OrderLine {
    OrderLine(m.id, m.name, m.price, quantity, "ordered")
  }

  /** `existing` is `lines` with, at most, quantities changed and lines appended. */
  ghost predicate Extends(lines: seq<OrderLine>, existing: seq<OrderLine>) {
    |lines| <= |existing| &&
    forall i :: 0 <= i < |lines| ==> existing[i] == lines[i].(quantity := existing[i].quantity)
  }

  /** One pass of the loop body: fold the request into an 'ordered' line with the
      same id, or append a snapshot line; skip it when the item is unknown or unavailable. */
  function MergeRequest(lines: seq<OrderLine>, menu: seq<MenuItem>, req: OrderRequest): (r: seq<OrderLine>)
    ensures Extends(lines, r) && |r| <= |lines| + 1
  {
    match FindMenuItem(menu, req.id)
    case None => lines
    case Some(m) =>
      if !m.available then lines
      else
        var k := FindOrderedLine(lines, req.id);
        if k != -1 then lines[k := lines[k].(quantity := lines[k].quantity + req.quantity)]
        else lines + [Snapshot(m, req.quantity)]
  }

  /** The loop over `items`, applied in request order. */
  function MergeRequests(lines: seq<OrderLine>, menu: seq<MenuItem>, reqs: seq<OrderRequest>): (r: seq<OrderLine>)
    ensures |lines| <= |r| <= |lines| + |reqs|
  {
    if reqs == [] then lines
    else MergeRequest(MergeRequests(lines, menu, reqs[..|reqs| - 1]), menu, reqs[|reqs| - 1])
  }

  /** The order a place-order request writes back: merged lines, recomputed total,
      and "empty" moved to "ordering". */
  function PlacedOrder(start: TableOrder, menu: seq<MenuItem>, reqs: seq<OrderRequest>): (o: TableOrder)
    ensures o.table == start.table
    ensures o.items == MergeRequests(start.items, menu, reqs)
    ensures o.total == LinesTotal(o.items)
    ensures start.status == "empty" ==> o.status == "ordering" && o.active
    ensures start.status != "empty" ==> o.status == start.status && o.active == start.active
  {
    var lines := MergeRequests(start.items, menu, reqs);
    var o := start.(items := lines, total := LinesTotal(lines));
    if o.status == "empty" then o.(status := "ordering", active := true) else o
  }

  /** POST `/api/order`: merge the requested items into the table's order and write it back. */
  method PlaceOrder(d: DataDir, table: Option<nat>, items: Option<seq<OrderRequest>>)
    returns (r: Result<TableOrder>)
    modifies d`tables
    ensures !GivenTable(table) || items.None? ==>
      r.Err? && r.error.status == 400 && d.tables == old(d.tables)
    ensures GivenTable(table) && items.Some? ==>
      var t := table.value;
      && r == Ok(PlacedOrder(StartingOrder(old(d.tables), t), d.menu, items.value))
      && d.tables == old(d.tables)[t := r.value]
    ensures TotalsConsistent(old(d.tables)) ==> TotalsConsistent(d.tables)
  {
    if !GivenTable(table) || items.None? {
      return Err(BadRequest("Table number and items are required"));
    }
    var t := table.value;
    var reqs := items.value;
    var order := StartingOrder(d.tables, t);
    var lines := order.items;
    var i := 0;
    while i < |reqs|
      invariant 0 <= i <= |reqs|
      invariant lines == MergeRequests(order.items, d.menu, reqs[..i])
    {
      var req := reqs[i];
      var menuItem := FindMenuItem(d.menu, req.id);
      if menuItem.Some? && menuItem.value.available {
        var k := FindOrderedLine(lines, req.id);
        if k != -1 {
          lines := lines[k := lines[k].(quantity := lines[k].quantity + req.quantity)];
        } else {
          lines := lines + [Snapshot(menuItem.value, req.quantity)];
        }
      }
      assert reqs[..i + 1][..i] == reqs[..i];
      i := i + 1;
    }
    assert reqs[..i] == reqs;
    order := order.(items := lines, total := LinesTotal(lines));
    if order.status == "empty" {
      order := order.(status := "ordering", active := true);
    }
    WriteKeepsTotals(d.tables, t, order);
    d.tables := d.tables[t := order];
    r := Ok(order);
  }

  lemma LineAmountGrows(l: OrderLine, q: int)
    ensures LineAmount(l.(quantity := l.quantity + q)) == LineAmount(l) + l.price * (q as real)
  {
    var a, b := l.quantity as real, q as real;
    assert (l.quantity + q) as real == a + b;
    assert l.price * (a + b) == l.price * a + l.price * b;
  }

  /** Adding `q` to the quantity of line `k` raises the order total by `q` at
      the price that line was first ordered at. */
  lemma FoldedTotal(lines: seq<OrderLine>, k: nat, q: int)
    requires k < |lines|
    ensures LinesTotal(lines[k := lines[k].(quantity := lines[k].quantity + q)])
      == LinesTotal(lines) + lines[k].price * (q as real)
  {
    LinesTotalUpdate(lines, k, lines[k].(quantity := lines[k].quantity + q));
    LineAmountGrows(lines[k], q);
  }

  /** What merging a request does, case by case: nothing when the item is
      unknown or unavailable, a quantity fold into the first 'ordered' line with
      its id, or an appended snapshot of the menu item. With `FoldedTotal` and
      `LinesTotalAppend`, the order total grows by the request's quantity at the
      folded line's price, or at the menu's current price for a new line. */
  lemma MergeRequestCases(lines: seq<OrderLine>, menu: seq<MenuItem>, req: OrderRequest)
    ensures !Accepted(menu, req) ==> MergeRequest(lines, menu, req) == lines
    ensures Accepted(menu, req) && FindOrderedLine(lines, req.id) != -1 ==>
      var k := FindOrderedLine(lines, req.id);
      MergeRequest(lines, menu, req) == lines[k := lines[k].(quantity := lines[k].quantity + req.quantity)]
    ensures Accepted(menu, req) && FindOrderedLine(lines, req.id) == -1 ==>
      MergeRequest(lines, menu, req) == lines + [Snapshot(FindMenuItem(menu, req.id).value, req.quantity)]
  {
  }

  /** No two lines in state 'ordered' share a menu id. */
  ghost predicate OrderedIdsUnique(lines: seq<OrderLine>) {
    forall i, j :: 0 <= i < j < |lines| && lines[i].status == "ordered" && lines[j].status == "ordered" ==>
      lines[i].id != lines[j].id
  }

  /** `l` is an 'ordered' line carrying the id, name and price of an available menu item. */
  ghost predicate IsSnapshotLine(l: OrderLine, menu: seq<MenuItem>) {
    l.status == "ordered" &&
    exists m :: m in menu && m.available && m.id == l.id && m.name == l.name && m.price == l.price
  }

  /** Every line past `from` is a snapshot of an available menu item. */
  ghost predicate SnapshotsFrom(lines: seq<OrderLine>, from: nat, menu: seq<MenuItem>) {
    forall i :: from <= i < |lines| ==> IsSnapshotLine(lines[i], menu)
  }

  lemma MergeRequestKeepsUnique(lines: seq<OrderLine>, menu: seq<MenuItem>, req: OrderRequest)
    requires OrderedIdsUnique(lines)
    ensures OrderedIdsUnique(MergeRequest(lines, menu, req))
  {
    var r := MergeRequest(lines, menu, req);
    if |r| == |lines| + 1 {
      assert FindOrderedLine(lines, req.id) == -1;
      assert r[|lines|].id == req.id;
    }
  }

  /** Placing requests keeps the existing lines, in their order, changing at most
      their quantities; every appended line is a snapshot of an available menu item;
      and repeats never produce two 'ordered' lines for one id. */
  lemma {:induction false} MergeRequestsShape(lines: seq<OrderLine>, menu: seq<MenuItem>, reqs: seq<OrderRequest>)
    ensures Extends(lines, MergeRequests(lines, menu, reqs))
    ensures SnapshotsFrom(MergeRequests(lines, menu, reqs), |lines|, menu)
    ensures OrderedIdsUnique(lines) ==> OrderedIdsUnique(MergeRequests(lines, menu, reqs))
  {
    if reqs != [] {
      var prev := MergeRequests(lines, menu, reqs[..|reqs| - 1]);
      var req := reqs[|reqs| - 1];
      MergeRequestsShape(lines, menu, reqs[..|reqs| - 1]);
      var r := MergeRequest(prev, menu, req);
      assert r == MergeRequests(lines, menu, reqs);
      if OrderedIdsUnique(lines) {
        MergeRequestKeepsUnique(prev, menu, req);
      }
      forall i | |lines| <= i < |r|
        ensures IsSnapshotLine(r[i], menu)
      {
        if i < |prev| {
          assert IsSnapshotLine(prev[i], menu);
          var m :| m in menu && m.available && m.id == prev[i].id && m.name == prev[i].name && m.price == prev[i].price;
          assert r[i] == prev[i].(quantity := r[i].quantity);
          assert m.id == r[i].id && m.name == r[i].name && m.price == r[i].price;
        } else {
          var m := FindMenuItem(menu, req.id).value;
          assert r[i] == Snapshot(m, req.quantity);
        }
      }
    }
  }

  /** Ordering an item twice on an order that has no 'ordered' line for it leaves
      one line whose quantity is the sum: 2 then 3 gives one line of 5. */
  lemma RepeatedOrderFolds(start: TableOrder, menu: seq<MenuItem>, id: int)
    requires Accepted(menu, OrderRequest(id, 2))
    requires forall i :: 0 <= i < |start.items| ==> !(start.items[i].id == id && start.items[i].status == "ordered")
    ensures var m := FindMenuItem(menu, id).value;
      var second := PlacedOrder(PlacedOrder(start, menu, [OrderRequest(id, 2)]), menu, [OrderRequest(id, 3)]);
      second.items == start.items + [OrderLine(id, m.name, m.price, 5, "ordered")]
  {
    var m := FindMenuItem(menu, id).value;
    var first := PlacedOrder(start, menu, [OrderRequest(id, 2)]);
    assert [OrderRequest(id, 2)][..0] == [];
    assert [OrderRequest(id, 3)][..0] == [];
    assert MergeRequests(start.items, menu, [OrderRequest(id, 2)]) == MergeRequest(start.items, menu, OrderRequest(id, 2));
    MergeRequestCases(start.items, menu, OrderRequest(id, 2));
    assert first.items == start.items + [Snapshot(m, 2)];
    assert FindOrderedLine(first.items, id) == |start.items|;
    assert MergeRequests(first.items, menu, [OrderRequest(id, 3)]) == MergeRequest(first.items, menu, OrderRequest(id, 3));
  }
}
