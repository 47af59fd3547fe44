/** The records the server keeps in its data directory, and the directory itself.

    Every route handler reads one of these JSON files, changes the plain object
    it holds and writes it back; the model keeps each kind of file as a field of
    `DataDir`, keyed the way the file names are. */
module Store {
  import opened Common

  /** An entry of `data/menu.json`. */
  datatype MenuItem = MenuItem(
    id: int, name: string, price: real, category: string, description: string, available: bool)

  /** A line of a table's order: a snapshot of the menu item's name and price. */
  datatype OrderLine = OrderLine(id: int, name: string, price: real, quantity: int, status: string)

  /** `data/tables/table-<n>.json`. */
  datatype TableOrder = TableOrder(
    table: nat, status: string, items: seq<OrderLine>, total: real, active: bool)

  /** `data/bills/<id>.json`. `date` is the instant the bill was made (`new Date(bill.date)`). */
  datatype Bill = Bill(
    id: string, table: nat, date: int, items: seq<OrderLine>,
    subtotal: real, discount: real, total: real,
    discountType: Option<string>, discountValue: Option<real>)

  /** One `{id, amount}` entry of a day's revenue record. */
  datatype BillEntry = BillEntry(id: string, amount: real)

  /** `data/revenue/<YYYY-MM-DD>.json`. */
  datatype RevenueRecord = RevenueRecord(date: string, bills: seq<BillEntry>, total: real)

  /** `data/archive/orders/table-<n>-<time>.json`: a table's order as it was when billed. */
  datatype ArchivedOrder = ArchivedOrder(table: nat, time: int, order: TableOrder)

  /** The record the server reads for a table that has no file. */
  function EmptyTable(t: nat): TableOrder {
    TableOrder(t, "empty", [], 0.0, false)
  }

  /** The record read for day `date` that has no file yet. */
  function EmptyRevenue(date: string): RevenueRecord {
    RevenueRecord(date, [], 0.0)
  }

  /** A table's record, or the empty default when its file does not exist. */
  function TableOrEmpty(tables: map<nat, TableOrder>, t: nat): (r: TableOrder)
    ensures t in tables ==> r == tables[t]
    ensures t !in tables ==> r == EmptyTable(t)
  {
    if t in tables then tables[t] else EmptyTable(t)
  }

  /** A day's revenue record, or the empty default when its file does not exist. */
  function RevenueOrEmpty(revenue: map<string, RevenueRecord>, date: string): (r: RevenueRecord)
    ensures date in revenue ==> r == revenue[date]
    ensures date !in revenue ==> r == EmptyRevenue(date)
  {
    if date in revenue then revenue[date] else EmptyRevenue(date)
  }

  function LineAmount(l: OrderLine): real {
    l.price * (l.quantity as real)
  }

  /** `items.reduce((sum, item) => sum + item.price * item.quantity, 0)`. */
  function LinesTotal(lines: seq<OrderLine>): real {
    if lines == [] then 0.0 else LinesTotal(lines[..|lines| - 1]) + LineAmount(lines[|lines| - 1])
  }

  /** `bills.reduce((sum, bill) => sum + bill.amount, 0)`. */
  function SumAmounts(entries: seq<BillEntry>): real {
    if entries == [] then 0.0 else SumAmounts(entries[..|entries| - 1]) + entries[|entries| - 1].amount
  }

  /** Every stored table's `total` is the sum of price × quantity over its lines. */
  ghost predicate TotalsConsistent(tables: map<nat, TableOrder>) {
    forall t :: t in tables ==> tables[t].total == LinesTotal(tables[t].items)
  }

  /** Writing a record whose total matches its lines keeps every total consistent. */
  lemma WriteKeepsTotals(tables: map<nat, TableOrder>, t: nat, o: TableOrder)
    ensures TotalsConsistent(tables) && o.total == LinesTotal(o.items) ==> TotalsConsistent(tables[t := o])
  {
  }

  /** Replacing one line changes the order total by the difference of the two line amounts. */
  lemma {:induction false} LinesTotalUpdate(lines: seq<OrderLine>, k: nat, l: OrderLine)
    requires k < |lines|
    ensures LinesTotal(lines[k := l]) == LinesTotal(lines) - LineAmount(lines[k]) + LineAmount(l)
  {
    var n := |lines|;
    var u := lines[k := l];
    if k < n - 1 {
      assert u[..n - 1] == lines[..n - 1][k := l];
      LinesTotalUpdate(lines[..n - 1], k, l);
    } else {
      assert u[..n - 1] == lines[..n - 1];
    }
  }

  /** Appending a line adds its amount to the order total. */
  lemma LinesTotalAppend(lines: seq<OrderLine>, l: OrderLine)
    ensures LinesTotal(lines + [l]) == LinesTotal(lines) + LineAmount(l)
  {
    assert (lines + [l])[..|lines|] == lines;
  }

  /** Appending an entry adds its amount to the day's sum. */
  lemma SumAmountsAppend(entries: seq<BillEntry>, e: BillEntry)
    ensures SumAmounts(entries + [e]) == SumAmounts(entries) + e.amount
  {
    assert (entries + [e])[..|entries|] == entries;
  }

  /** Index of the first menu item whose id is `id` (`findIndex`), or -1. */
  function IndexOfId(items: seq<MenuItem>, id: int): (r: int)
    ensures -1 <= r < |items|
    ensures r == -1 <==> forall i :: 0 <= i < |items| ==> items[i].id != id
    ensures r >= 0 ==> items[r].id == id && forall i :: 0 <= i < r ==> items[i].id != id
  {
    if items == [] then -1
    else if items[0].id == id then 0
    else
      var r := IndexOfId(items[1..], id);
      if r == -1 then -1 else r + 1
  }

  /** `menu.items.find(item => item.id === id)`. */
  function FindMenuItem(menu: seq<MenuItem>, id: int): (r: Option<MenuItem>)
    ensures r.None? <==> forall i :: 0 <= i < |menu| ==> menu[i].id != id
    ensures r.Some? ==> r.value.id == id
    ensures r.Some? ==>
      exists k :: 0 <= k < |menu| && menu[k] == r.value && (forall i :: 0 <= i < k ==> menu[i].id != id)
  {
    var k := IndexOfId(menu, id);
    if k == -1 then None else Some(menu[k])
  }

  /** The server's data directory. */
  class DataDir {
    /** The items of `data/menu.json`, in file order. */
    var menu: seq<MenuItem>
    /** `data/tables/`, by table number. */
    var tables: map<nat, TableOrder>
    /** `data/bills/`, by bill id. */
    var bills: map<string, Bill>
    /** `data/archive/orders/`, in the order the copies were written. */
    var archive: seq<ArchivedOrder>
    /** `data/revenue/`, by date. */
    var revenue: map<string, RevenueRecord>

    /** A data directory holding only a menu file. */
    constructor (initialMenu: seq<MenuItem>)
      ensures menu == initialMenu
      ensures tables == map[] && bills == map[] && archive == [] && revenue == map[]
    {
      menu := initialMenu;
      tables := map[];
      bills := map[];
      archive := [];
      revenue := map[];
    }
  }
}
