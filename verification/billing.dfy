/** The billing routes (`/api/bill`): close out a table into a bill, find a
    table's latest bill, and the guards of the printable bill view. */
module Billing {
  import opened Common
  import opened Text
  import opened Store
  import Orders
  import Tables
  import Revenue

  /** The parts of `new Date()` the close-out reads: the local `getFullYear()`,
      `getMonth()` (0-based) and `getDate()` for the bill id, the instant
      `getTime()`, and the UTC date key `toISOString().split('T')[0]`. */
  datatype Clock = Clock(year: nat, month: nat, day: nat, time: int, isoDate: string)

  // ----- Discount -----

  /** `discountType && discountValue`: both fields truthy. */
  predicate DiscountRequested(discountType: Option<string>, discountValue: Option<real>) {
    Given(discountType) && GivenNumber(discountValue)
  }

  /** The discount asked for, before the cap: the value itself for "flat", that
      percentage of the subtotal for "percentage", nothing for any other type. */
  function RequestedDiscount(discountType: string, value: real, subtotal: real): real {
    if discountType == "flat" then value
    else if discountType == "percentage" then subtotal * value / 100.0
    else 0.0
  }

  /** The discount applied: only when both fields are truthy, and then capped
      above (never below) at the subtotal. */
  function Discount(discountType: Option<string>, discountValue: Option<real>, subtotal: real): (r: real)
    ensures !DiscountRequested(discountType, discountValue) ==> r == 0.0
    ensures DiscountRequested(discountType, discountValue) ==>
      var asked := RequestedDiscount(discountType.value, discountValue.value, subtotal);
      r <= subtotal && r <= asked && (r == subtotal || r == asked)
  {
    if DiscountRequested(discountType, discountValue) then
      Min(RequestedDiscount(discountType.value, discountValue.value, subtotal), subtotal)
    else 0.0
  }

  /** A requested discount never makes the total of a non-negative subtotal negative. */
  lemma RequestedDiscountKeepsTotalNonNegative(discountType: Option<string>, discountValue: Option<real>, subtotal: real)
    requires DiscountRequested(discountType, discountValue)
    requires subtotal >= 0.0
    ensures 0.0 <= subtotal - Discount(discountType, discountValue, subtotal)
  {
  }

  /** A percentage in (0, 100] of a non-negative subtotal lands in [0, subtotal],
      and the total is the remaining share of the subtotal. */
  lemma PercentageWithinSubtotal(value: real, subtotal: real)
    requires 0.0 < value <= 100.0 && subtotal >= 0.0
    ensures var r := Discount(Some("percentage"), Some(value), subtotal);
      0.0 <= r <= subtotal && subtotal - r == subtotal * (100.0 - value) / 100.0
  {
    assert subtotal * value <= subtotal * 100.0;
    assert 0.0 <= subtotal * value;
  }

  /** There is no lower clamp: a negative flat value raises the total above the subtotal. */
  lemma NegativeFlatRaisesTotal(value: real, subtotal: real)
    requires value < 0.0 && subtotal >= 0.0
    ensures subtotal - Discount(Some("flat"), Some(value), subtotal) == subtotal - value > subtotal
  {
  }

  /** A discount type other than "flat" or "percentage" gives at most the cap of 0. */
  lemma UnknownTypeGivesNoDiscount(discountType: string, value: real, subtotal: real)
    requires discountType != "" && discountType != "flat" && discountType != "percentage" && value != 0.0
    ensures Discount(Some(discountType), Some(value), subtotal) == Min(0.0, subtotal)
  {
  }

  /** A flat discount of twice the subtotal is cut to the subtotal (total 0); 50
      percent of 200 is 100. */
  lemma DiscountExamples(subtotal: real)
    requires subtotal > 0.0
    ensures Discount(Some("flat"), Some(2.0 * subtotal), subtotal) == subtotal
    ensures Discount(Some("percentage"), Some(50.0), 200.0) == 100.0
  {
  }

  // ----- Bill identifiers -----

  /** `HTL-<table padded to 2>`, the part of a bill id naming the table. */
  function TablePrefix(t: nat): string {
    "HTL-" + Pad2(t)
  }

  /** `<YYYY><MM><DD>-<suffix padded to 4>`. */
  function BillIdTail(now: Clock, suffix: nat): string {
    NatToString(now.year) + Pad2(now.month + 1) + Pad2(now.day) + "-" + PadStart(NatToString(suffix), 4, '0')
  }

  /** `HTL-<table>-<YYYYMMDD>-<suffix>`; `suffix` is `Math.floor(Math.random() * 10000)`. */
  function BillId(t: nat, now: Clock, suffix: nat): string {
    TablePrefix(t) + "-" + BillIdTail(now, suffix)
  }

  /** The filter of the latest-bill lookup as the source writes it:
      `file.startsWith(`HTL-${table.toString().padStart(2, '0')}`)`. */
  predicate MatchesTableAsWritten(id: string, t: nat)
    ensures MatchesTable(id, t) ==> MatchesTableAsWritten(id, t)
  {
    StartsWithShorter(id, TablePrefix(t), "-");
    StartsWith(id, TablePrefix(t))
  }

  /** `HTL-<table padded to 2>-`: the head every bill id of table `t` has. */
  function BillPrefix(t: nat): string {
    TablePrefix(t) + "-"
  }

  /** The filter with the separator after the table number included. */
  predicate MatchesTable(id: string, t: nat) {
    StartsWith(id, BillPrefix(t))
  }

  /** A digit string followed by '-' is the only digit string that can head it. */
  lemma DigitsBeforeDash(p: string, q: string, rest: string)
    requires AllDigits(p) && AllDigits(q)
    requires StartsWith(q + "-" + rest, p + "-")
    ensures p == q
  {
    var s := q + "-" + rest;
    var pre := p + "-";
    assert s[..|pre|] == pre;
    assert s[|p|] == '-';
    assert forall j :: 0 <= j < |q| ==> IsDigit(s[j]);
    assert |p| >= |q|;
    assert s[|q|] == '-';
    assert forall j :: 0 <= j < |p| ==> s[j] == p[j];
    assert |q| >= |p|;
    assert p == s[..|p|] == q;
  }

  /** Two ids headed "HTL-" share the head up to the separator exactly when
      their digit parts agree. */
  lemma HeadsAgree(p: string, q: string, tail: string)
    requires AllDigits(p) && AllDigits(q)
    ensures StartsWith("HTL-" + q + "-" + tail, "HTL-" + p + "-") <==> p == q
  {
    var s := "HTL-" + q + "-" + tail;
    var pre := "HTL-" + p + "-";
    if p == q {
      assert s == pre + tail;
      assert s[..|pre|] == pre;
    } else if StartsWith(s, pre) {
      assert s[4..] == q + "-" + tail;
      assert pre[4..] == p + "-";
      assert s[4..][..|p + "-"|] == s[..|pre|][4..];
      DigitsBeforeDash(p, q, tail);
    }
  }

  /** The corrected filter admits a generated bill id for exactly the table it was made for. */
  lemma BillIdMatchesOnlyItsTable(t: nat, owner: nat, now: Clock, suffix: nat)
    ensures MatchesTable(BillId(owner, now, suffix), t) <==> t == owner
  {
    Pad2Digits(t);
    Pad2Digits(owner);
    HeadsAgree(Pad2(t), Pad2(owner), BillIdTail(now, suffix));
    if Pad2(t) == Pad2(owner) {
      Pad2Injective(t, owner);
    }
  }

  /** Finding: the filter as written lets a table numbered 10 or more see the
      bills of every table whose number extends its own by one digit; table 10,
      for instance, sees those of tables 100 to 109, because "HTL-100-..."
      starts with "HTL-10". The corrected filter rejects them. */
  lemma AsWrittenFilterAdmitsOtherTables(t: nat, d: nat, now: Clock, suffix: nat)
    requires 10 <= t && d < 10
    ensures MatchesTableAsWritten(BillId(10 * t + d, now, suffix), t)
    ensures !MatchesTable(BillId(10 * t + d, now, suffix), t)
  {
    var n := 10 * t + d;
    var digits := NatToString(t);
    assert n / 10 == t && n % 10 == d;
    assert NatToString(n) == digits + [DigitChar(d)];
    assert Pad2(t) == digits;
    assert Pad2(n) == digits + [DigitChar(d)];
    assert TablePrefix(n) == TablePrefix(t) + [DigitChar(d)];
    StartsWithAppend(TablePrefix(t), [DigitChar(d)], TablePrefix(t));
    StartsWithAppend(TablePrefix(n), "-", TablePrefix(t));
    StartsWithAppend(TablePrefix(n) + "-", BillIdTail(now, suffix), TablePrefix(t));
    BillIdMatchesOnlyItsTable(t, n, now, suffix);
  }

  /** Without the separator, an id headed "HTL-" followed by a digit part
      starts with another head of the same length exactly when the two agree. */
  lemma SameLengthHeads(p: string, q: string, tail: string)
    requires |p| == |q|
    ensures StartsWith("HTL-" + q + "-" + tail, "HTL-" + p) <==> p == q
  {
    var s := "HTL-" + q + "-" + tail;
    assert s[..|p| + 4] == "HTL-" + q;
    if StartsWith(s, "HTL-" + p) {
      assert p == ("HTL-" + p)[4..] == ("HTL-" + q)[4..] == q;
    }
  }

  /** For table numbers below 100 (the restaurant's 1..20 among them) the filter
      as written and the corrected one agree on every generated bill id. */
  lemma FiltersAgreeBelow100(t: nat, owner: nat, now: Clock, suffix: nat)
    requires t < 100 && owner < 100
    ensures MatchesTableAsWritten(BillId(owner, now, suffix), t) <==> MatchesTable(BillId(owner, now, suffix), t)
  {
    Pad2Short(t);
    Pad2Short(owner);
    SameLengthHeads(Pad2(t), Pad2(owner), BillIdTail(now, suffix));
    BillIdMatchesOnlyItsTable(t, owner, now, suffix);
    if Pad2(t) == Pad2(owner) {
      Pad2Injective(t, owner);
    }
  }

  // ----- Close-out -----

  /** A table can be billed unless its status is "empty" or it is not active. */
  predicate Billable(order: TableOrder) {
    order.status != "empty" && order.active
  }

  /** The bill a close-out writes. */
  function MakeBill(t: nat, order: TableOrder, discountType: Option<string>, discountValue: Option<real>,
                    now: Clock, suffix: nat): Bill
  {
    var subtotal := order.total;
    var discount := Discount(discountType, discountValue, subtotal);
    Bill(BillId(t, now, suffix), t, now.time, order.items, subtotal, discount, subtotal - discount,
         discountType, discountValue)
  }

  /** The bill charges the table's stored total, less the discount, for the
      table's own lines, under an id the latest-bill lookup finds for that table. */
  lemma BillFigures(t: nat, order: TableOrder, discountType: Option<string>, discountValue: Option<real>,
                    now: Clock, suffix: nat)
    ensures var b := MakeBill(t, order, discountType, discountValue, now, suffix);
      && b.subtotal == order.total && b.items == order.items && b.table == t
      && b.total == b.subtotal - b.discount
      && (DiscountRequested(discountType, discountValue) && order.total >= 0.0 ==> 0.0 <= b.total)
      && (forall other: nat :: MatchesTable(b.id, other) <==> other == t)
  {
    var b := MakeBill(t, order, discountType, discountValue, now, suffix);
    forall other: nat ensures MatchesTable(b.id, other) <==> other == t {
      BillIdMatchesOnlyItsTable(other, t, now, suffix);
    }
  }

  /** Append `{id, amount}` to a day's record and recompute its total from all entries. */
  function RecordBill(rec: RevenueRecord, id: string, amount: real): (r: RevenueRecord)
    ensures r.date == rec.date && r.bills == rec.bills + [BillEntry(id, amount)]
    ensures r.total == SumAmounts(rec.bills) + amount
  {
    var bills := rec.bills + [BillEntry(id, amount)];
    SumAmountsAppend(rec.bills, BillEntry(id, amount));
    rec.(bills := bills, total := SumAmounts(bills))
  }

  /** The day's total grows by exactly the bill's amount when it was consistent
      before; a day without a record starts with this bill alone. */
  lemma LedgerGrowsByBillTotal(revenue: map<string, RevenueRecord>, date: string, id: string, amount: real)
    ensures var before := RevenueOrEmpty(revenue, date);
      var after := RecordBill(before, id, amount);
      && (before.total == SumAmounts(before.bills) ==> after.total == before.total + amount)
      && (date !in revenue ==> after == RevenueRecord(date, [BillEntry(id, amount)], amount))
  {
    if date !in revenue {
      assert RevenueOrEmpty(revenue, date).bills == [];
      assert [] + [BillEntry(id, amount)] == [BillEntry(id, amount)];
    }
  }

  /** The writes of a close-out, in the order the route makes them: the bill
      file, the archived copy of the order, the day's revenue record, and the
      table reset to empty. */
  method FileBill(d: DataDir, t: nat, order: TableOrder, bill: Bill, now: Clock)
    modifies d`tables, d`bills, d`archive, d`revenue
    ensures d.bills == old(d.bills)[bill.id := bill]
    ensures d.archive == old(d.archive) + [ArchivedOrder(t, now.time, order)]
    ensures d.revenue == old(d.revenue)[now.isoDate :=
      RecordBill(RevenueOrEmpty(old(d.revenue), now.isoDate), bill.id, bill.total)]
    ensures d.tables == old(d.tables)[t := EmptyTable(t)]
    ensures TotalsConsistent(old(d.tables)) ==> TotalsConsistent(d.tables)
  {
    d.bills := d.bills[bill.id := bill];
    d.archive := d.archive + [ArchivedOrder(t, now.time, order)];
    var revenueData := if now.isoDate in d.revenue then d.revenue[now.isoDate] else EmptyRevenue(now.isoDate);
    revenueData := RecordBill(revenueData, bill.id, bill.total);
    d.revenue := d.revenue[now.isoDate := revenueData];
    WriteKeepsTotals(d.tables, t, EmptyTable(t));
    d.tables := d.tables[t := EmptyTable(t)];
  }

  /** POST `/api/bill/generate`: bill the table, archive its order, add the bill
      to the day's revenue and reset the table, in one step. */
  method GenerateBill(d: DataDir, table: Option<nat>, discountType: Option<string>, discountValue: Option<real>,
                      now: Clock, suffix: nat)
    returns (r: Result<Bill>)
    modifies d`tables, d`bills, d`archive, d`revenue
    ensures r.Err? ==>
      d.tables == old(d.tables) && d.bills == old(d.bills) && d.archive == old(d.archive) && d.revenue == old(d.revenue)
    ensures !GivenTable(table) ==> r.Err? && r.error.status == 400
    ensures GivenTable(table) && table.value !in old(d.tables) ==> r.Err? && r.error.status == 404
    ensures GivenTable(table) && table.value in old(d.tables) && !Billable(old(d.tables)[table.value]) ==>
      r.Err? && r.error.status == 400
    ensures GivenTable(table) && table.value in old(d.tables) && Billable(old(d.tables)[table.value]) ==>
      var t := table.value;
      var order := old(d.tables)[t];
      && r == Ok(MakeBill(t, order, discountType, discountValue, now, suffix))
      && d.bills == old(d.bills)[r.value.id := r.value]
      && d.archive == old(d.archive) + [ArchivedOrder(t, now.time, order)]
      && d.revenue == old(d.revenue)[now.isoDate :=
           RecordBill(RevenueOrEmpty(old(d.revenue), now.isoDate), r.value.id, r.value.total)]
      && d.tables == old(d.tables)[t := EmptyTable(t)]
    ensures TotalsConsistent(old(d.tables)) ==> TotalsConsistent(d.tables)
  {
    if !GivenTable(table) {
      return Err(BadRequest("Table number is required"));
    }
    var t := table.value;
    if t !in d.tables {
      return Err(NotFound("Table not found"));
    }
    var tableOrder := d.tables[t];
    if tableOrder.status == "empty" || !tableOrder.active {
      return Err(BadRequest("No active order for this table"));
    }
    var bill := MakeBill(t, tableOrder, discountType, discountValue, now, suffix);
    FileBill(d, t, tableOrder, bill, now);
    r := Ok(bill);
  }

  // ----- Reading bills -----

  /** GET `/api/bill/view?id=`, up to the bill it renders. */
  function ViewBill(bills: map<string, Bill>, id: Option<string>): (r: Result<Bill>)
    ensures !Given(id) ==> r.Err? && r.error.status == 400
    ensures Given(id) && id.value !in bills ==> r.Err? && r.error.status == 404
    ensures Given(id) && id.value in bills ==> r == Ok(bills[id.value])
  {
    if !Given(id) then Err(BadRequest("Bill ID is required"))
    else if id.value !in bills then Err(NotFound("Bill not found"))
    else Ok(bills[id.value])
  }

  /** Among the first `n` listed bills, the one at `k` starts with `prefix`, no
      bill with that prefix is later, and every one listed before it is strictly earlier. */
  ghost predicate LatestAmong(bills: map<string, Bill>, listing: seq<string>, prefix: string, k: nat, n: nat)
    requires forall i :: 0 <= i < |listing| ==> listing[i] in bills
    requires n <= |listing|
  {
    && k < n
    && StartsWith(listing[k], prefix)
    && (forall j :: 0 <= j < n && StartsWith(listing[j], prefix) ==> bills[listing[j]].date <= bills[listing[k]].date)
    && (forall j :: 0 <= j < k && StartsWith(listing[j], prefix) ==> bills[listing[j]].date < bills[listing[k]].date)
  }

  /** The first bill with the prefix in the listing is the latest among those seen so far. */
  lemma LatestFirst(bills: map<string, Bill>, listing: seq<string>, prefix: string, i: nat)
    requires forall j :: 0 <= j < |listing| ==> listing[j] in bills
    requires i < |listing| && StartsWith(listing[i], prefix)
    requires forall j :: 0 <= j < i ==> !StartsWith(listing[j], prefix)
    ensures LatestAmong(bills, listing, prefix, i, i + 1)
  {
  }

  /** One more listed bill either replaces the latest (strictly later) or leaves it in place. */
  lemma LatestStep(bills: map<string, Bill>, listing: seq<string>, prefix: string, k: nat, i: nat)
    requires forall j :: 0 <= j < |listing| ==> listing[j] in bills
    requires i < |listing| && LatestAmong(bills, listing, prefix, k, i)
    ensures StartsWith(listing[i], prefix) && bills[listing[i]].date > bills[listing[k]].date ==>
      LatestAmong(bills, listing, prefix, i, i + 1)
    ensures !(StartsWith(listing[i], prefix) && bills[listing[i]].date > bills[listing[k]].date) ==>
      LatestAmong(bills, listing, prefix, k, i + 1)
  {
  }

  /** After a close-out the table's status route reads the empty record, and the
      view route finds the bill under its id. */
  lemma CloseOutIsVisible(tables: map<nat, TableOrder>, bills: map<string, Bill>, t: nat, b: Bill,
                          now: Clock, suffix: nat)
    requires t != 0 && b.id == BillId(t, now, suffix)
    ensures Tables.Status(tables[t := EmptyTable(t)], Some(t)) == Ok(TableOrder(t, "empty", [], 0.0, false))
    ensures ViewBill(bills[b.id := b], Some(b.id)) == Ok(b)
  {
    assert |b.id| >= |TablePrefix(t)| >= 4;
  }

  /** The scan of the latest-bill route: over the listed bills whose id starts
      with `prefix`, keep the first one with the greatest date. */
  method ScanLatest(bills: map<string, Bill>, listing: seq<string>, prefix: string) returns (latest: Option<Bill>)
    requires forall i :: 0 <= i < |listing| ==> listing[i] in bills
    ensures latest.None? <==> forall j :: 0 <= j < |listing| ==> !StartsWith(listing[j], prefix)
    ensures latest.Some? ==>
      exists k :: 0 <= k < |listing| && LatestAmong(bills, listing, prefix, k, |listing|) && latest.value == bills[listing[k]]
  {
    latest := None;
    ghost var k := 0;
    var i := 0;
    while i < |listing|
      invariant 0 <= i <= |listing|
      invariant latest.None? <==> forall j :: 0 <= j < i ==> !StartsWith(listing[j], prefix)
      invariant latest.Some? ==> LatestAmong(bills, listing, prefix, k, i) && latest.value == bills[listing[k]]
    {
      if latest.Some? {
        LatestStep(bills, listing, prefix, k, i);
      } else if StartsWith(listing[i], prefix) {
        LatestFirst(bills, listing, prefix, i);
      }
      if StartsWith(listing[i], prefix) {
        var bill := bills[listing[i]];
        if latest.None? || bill.date > latest.value.date {
          latest := Some(bill);
          k := i;
        }
      }
      i := i + 1;
    }
  }

  /** GET `/api/bill?table=`: among `listing` (the bill files in directory order)
      the table's bill with the latest date; on equal dates the first listed wins. */
  method LatestBill(d: DataDir, table: Option<nat>, listing: seq<string>) returns (r: Result<Bill>)
    requires forall i :: 0 <= i < |listing| ==> listing[i] in d.bills
    ensures !GivenTable(table) ==> r.Err? && r.error.status == 400
    ensures GivenTable(table) && (forall i :: 0 <= i < |listing| ==> !MatchesTable(listing[i], table.value)) ==>
      r.Err? && r.error.status == 404
    ensures r.Ok? ==>
      && GivenTable(table)
      && exists k :: 0 <= k < |listing| && LatestAmong(d.bills, listing, BillPrefix(table.value), k, |listing|) &&
           r.value == d.bills[listing[k]]
    ensures GivenTable(table) && (exists i :: 0 <= i < |listing| && MatchesTable(listing[i], table.value)) ==> r.Ok?
  {
    if !GivenTable(table) {
      return Err(BadRequest("Table number is required"));
    }
    var latestBill := ScanLatest(d.bills, listing, BillPrefix(table.value));
    if latestBill.None? {
      return Err(NotFound("No bill found for this table"));
    }
    r := Ok(latestBill.value);
  }

  /** GET `/api/bill?table=` with the filter exactly as the route writes it
      (no separator after the table number). */
  method LatestBillAsWritten(d: DataDir, table: Option<nat>, listing: seq<string>) returns (r: Result<Bill>)
    requires forall i :: 0 <= i < |listing| ==> listing[i] in d.bills
    ensures !GivenTable(table) ==> r.Err? && r.error.status == 400
    ensures GivenTable(table) && (forall i :: 0 <= i < |listing| ==> !MatchesTableAsWritten(listing[i], table.value)) ==>
      r.Err? && r.error.status == 404
    ensures r.Ok? ==>
      && GivenTable(table)
      && exists k :: 0 <= k < |listing| && LatestAmong(d.bills, listing, TablePrefix(table.value), k, |listing|) &&
           r.value == d.bills[listing[k]]
    ensures GivenTable(table) && (exists i :: 0 <= i < |listing| && MatchesTableAsWritten(listing[i], table.value)) ==>
      r.Ok?
  {
    if !GivenTable(table) {
      return Err(BadRequest("Table number is required"));
    }
    var latestBill := ScanLatest(d.bills, listing, TablePrefix(table.value));
    if latestBill.None? {
      return Err(NotFound("No bill found for this table"));
    }
    r := Ok(latestBill.value);
  }

  // ----- A whole evening -----

  /** Two of menu item 3 at 250, ordered at table 7 (which had no file), give
      one line and an active order of 500. */
  lemma TwoAt250(menu: seq<MenuItem>, tables: map<nat, TableOrder>)
    requires Orders.Accepted(menu, Orders.OrderRequest(3, 2))
    requires FindMenuItem(menu, 3).value.price == 250.0
    requires 7 !in tables
    ensures var order := Orders.PlacedOrder(Orders.StartingOrder(tables, 7), menu, [Orders.OrderRequest(3, 2)]);
      && order.items == [Orders.Snapshot(FindMenuItem(menu, 3).value, 2)]
      && order.total == 500.0 && Billable(order)
  {
    var req := Orders.OrderRequest(3, 2);
    var m := FindMenuItem(menu, 3).value;
    var start := Orders.StartingOrder(tables, 7);
    assert [req][..0] == [];
    assert Orders.MergeRequests(start.items, menu, [req]) == Orders.MergeRequest([], menu, req);
    Orders.MergeRequestCases([], menu, req);
    var line := Orders.Snapshot(m, 2);
    assert Orders.MergeRequest([], menu, req) == [line];
    assert [line][..0] == [];
    assert LinesTotal([line]) == 250.0 * 2.0;
  }

  /** One evening on a fresh data directory: two of menu item 3 at 250 are
      ordered at table 7, the table is billed with 10 percent off, and then the
      table and the day's revenue are read back. */
  method Evening(menu: seq<MenuItem>, now: Clock, suffix: nat)
    returns (bill: Result<Bill>, tableAfter: Result<TableOrder>, dayTotal: real)
    requires Orders.Accepted(menu, Orders.OrderRequest(3, 2))
    requires FindMenuItem(menu, 3).value.price == 250.0
    ensures bill.Ok? && bill.value.table == 7 && MatchesTable(bill.value.id, 7)
    ensures bill.value.items == [Orders.Snapshot(FindMenuItem(menu, 3).value, 2)]
    ensures bill.value.subtotal == 500.0 && bill.value.discount == 50.0 && bill.value.total == 450.0
    ensures tableAfter == Ok(EmptyTable(7))
    ensures dayTotal == 450.0
  {
    var d := new DataDir(menu);
    TwoAt250(menu, d.tables);
    var placed := Orders.PlaceOrder(d, Some(7), Some([Orders.OrderRequest(3, 2)]));
    assert Discount(Some("percentage"), Some(10.0), 500.0) == 50.0;
    bill := GenerateBill(d, Some(7), Some("percentage"), Some(10.0), now, suffix);
    BillFigures(7, placed.value, Some("percentage"), Some(10.0), now, suffix);
    tableAfter := Orders.GetOrder(d.tables, Some(7));
    dayTotal := Revenue.Today(d.revenue, now.isoDate).total;
  }
}
