/** The table routes (`/api/table`): read one table's record, set its status,
    and list all tables with the numbers 1..20 always present. */
module Tables {
  import opened Common
  import opened Store

  /** GET `/api/table/status?table=`: the table's record, or the empty default. */
  function Status(tables: map<nat, TableOrder>, table: Option<nat>): (r: Result<TableOrder>)
    ensures !GivenTable(table) ==> r.Err? && r.error.status == 400
    ensures GivenTable(table) && table.value in tables ==> r == Ok(tables[table.value])
    ensures GivenTable(table) && table.value !in tables ==>
      r == Ok(TableOrder(table.value, "empty", [], 0.0, false))
  {
    if !GivenTable(table) then Err(BadRequest("Table number is required"))
    else Ok(TableOrEmpty(tables, table.value))
  }

  /** The record with its status set: `active` is derived from the new status,
      and nothing else of the record changes. */
  function WithStatus(rec: TableOrder, status: string): (r: TableOrder)
    ensures r.status == status
    ensures !r.active <==> status == "empty" || status == "closed"
    ensures r.table == rec.table && r.items == rec.items && r.total == rec.total
  {
    rec.(status := status, active := !(status == "empty" || status == "closed"))
  }

  /** POST `/api/table/set-status`: any non-empty status string is accepted. */
  method SetStatus(d: DataDir, table: Option<nat>, status: Option<string>) returns (r: Result<TableOrder>)
    modifies d`tables
    ensures !GivenTable(table) || !Given(status) ==>
      r.Err? && r.error.status == 400 && d.tables == old(d.tables)
    ensures GivenTable(table) && Given(status) ==>
      && r == Ok(WithStatus(TableOrEmpty(old(d.tables), table.value), status.value))
      && d.tables == old(d.tables)[table.value := r.value]
    ensures TotalsConsistent(old(d.tables)) ==> TotalsConsistent(d.tables)
  {
    if !GivenTable(table) || !Given(status) {
      return Err(BadRequest("Table number and status are required"));
    }
    var t := table.value;
    var tableData := if t in d.tables then d.tables[t] else EmptyTable(t);
    tableData := tableData.(status := status.value);
    if status.value == "empty" || status.value == "closed" {
      tableData := tableData.(active := false);
    } else {
      tableData := tableData.(active := true);
    }
    WriteKeepsTotals(d.tables, t, tableData);
    d.tables := d.tables[t := tableData];
    r := Ok(tableData);
  }

  /** The records read from the table files, in directory-listing order. */
  function Loaded(tables: map<nat, TableOrder>, listing: seq<nat>): (r: seq<TableOrder>)
    requires forall i :: 0 <= i < |listing| ==> listing[i] in tables
    ensures |r| == |listing| && forall i :: 0 <= i < |listing| ==> r[i] == tables[listing[i]]
  {
    if listing == [] then []
    else Loaded(tables, listing[..|listing| - 1]) + [tables[listing[|listing| - 1]]]
  }

  /** `tables.some(table => table.table === n)`. */
  predicate HasTable(s: seq<TableOrder>, n: nat) {
    exists j :: 0 <= j < |s| && s[j].table == n
  }

  /** The default records the loop over 1..n pushes: one for each number no loaded record has. */
  function Defaults(loaded: seq<TableOrder>, n: nat): seq<TableOrder> {
    if n == 0 then []
    else Defaults(loaded, n - 1) + (if HasTable(loaded, n) then [] else [EmptyTable(n)])
  }

  /** Every default is the empty record of a number in 1..n that no loaded record has. */
  lemma {:induction false} DefaultsOnlyForMissing(loaded: seq<TableOrder>, n: nat)
    ensures forall j :: 0 <= j < |Defaults(loaded, n)| ==>
      var e := Defaults(loaded, n)[j];
      1 <= e.table <= n && e == EmptyTable(e.table) && !HasTable(loaded, e.table)
  {
    if n > 0 {
      DefaultsOnlyForMissing(loaded, n - 1);
    }
  }

  /** After the loop over 1..n, every number in 1..n has a record. */
  lemma {:induction false} DefaultsCover(loaded: seq<TableOrder>, n: nat)
    ensures forall k :: 1 <= k <= n ==> HasTable(loaded + Defaults(loaded, n), k)
  {
    if n > 0 {
      DefaultsCover(loaded, n - 1);
      var prev := loaded + Defaults(loaded, n - 1);
      var now := loaded + Defaults(loaded, n);
      assert prev == now[..|prev|];
      forall k | 1 <= k <= n ensures HasTable(now, k) {
        if k < n {
          assert HasTable(prev, k);
          var j :| 0 <= j < |prev| && prev[j].table == k;
          assert now[j] == prev[j];
        } else if HasTable(loaded, n) {
          var j :| 0 <= j < |loaded| && loaded[j].table == n;
          assert now[j] == loaded[j];
        } else {
          assert now[|now| - 1].table == n;
        }
      }
    }
  }

  /** The numbers below n do not disturb the test for n: it sees only the loaded records. */
  lemma HasTableBeforeDefault(loaded: seq<TableOrder>, n: nat)
    requires n >= 1
    ensures HasTable(loaded + Defaults(loaded, n - 1), n) == HasTable(loaded, n)
  {
    var s := loaded + Defaults(loaded, n - 1);
    DefaultsOnlyForMissing(loaded, n - 1);
    if HasTable(s, n) {
      var j :| 0 <= j < |s| && s[j].table == n;
      if j >= |loaded| {
        assert false;
      } else {
        assert loaded[j] == s[j];
      }
    }
    if HasTable(loaded, n) {
      var j :| 0 <= j < |loaded| && loaded[j].table == n;
      assert s[j] == loaded[j];
    }
  }

  predicate SortedByTable(s: seq<TableOrder>) {
    forall i, j :: 0 <= i < j < |s| ==> s[i].table <= s[j].table
  }

  /** Place `o` in front of the first record with a number at least its own. */
  function InsertByTable(o: TableOrder, s: seq<TableOrder>): (r: seq<TableOrder>)
    requires SortedByTable(s)
    ensures SortedByTable(r)
    ensures multiset(r) == multiset(s) + multiset{o}
    ensures |r| > 0 && (r[0] == o || (s != [] && r[0] == s[0]))
  {
    if s == [] || o.table <= s[0].table then
      ConsSorted(o, s);
      [o] + s
    else
      assert s == [s[0]] + s[1..];
      var rest := InsertByTable(o, s[1..]);
      ConsSorted(s[0], rest);
      [s[0]] + rest
  }

  /** A record no later than the head of a sorted sequence can go in front of it. */
  lemma ConsSorted(x: TableOrder, s: seq<TableOrder>)
    requires SortedByTable(s)
    requires s == [] || x.table <= s[0].table
    ensures SortedByTable([x] + s)
  {
    var r := [x] + s;
    forall i, j | 0 <= i < j < |r| ensures r[i].table <= r[j].table {
      if i == 0 {
        assert r[j] == s[j - 1];
        assert s[0].table <= s[j - 1].table;
      } else {
        assert r[i] == s[i - 1] && r[j] == s[j - 1];
      }
    }
  }

  /** `tables.sort((a, b) => a.table - b.table)`: an insertion sort by table number,
      stable like the built-in sort (see `SortByTableStable`). */
  function SortByTable(s: seq<TableOrder>): (r: seq<TableOrder>)
    ensures SortedByTable(r)
    ensures multiset(r) == multiset(s)
  {
    if s == [] then []
    else
      assert s == [s[0]] + s[1..];
      InsertByTable(s[0], SortByTable(s[1..]))
  }

  /** The records with table number `n`, in their order in `s`. */
  function WithTable(s: seq<TableOrder>, n: nat): seq<TableOrder> {
    if s == [] then [] else (if s[0].table == n then [s[0]] else []) + WithTable(s[1..], n)
  }

  lemma {:induction false} WithTableAppend(a: seq<TableOrder>, b: seq<TableOrder>, n: nat)
    ensures WithTable(a + b, n) == WithTable(a, n) + WithTable(b, n)
  {
    if a != [] {
      assert (a + b)[1..] == a[1..] + b;
      WithTableAppend(a[1..], b, n);
    } else {
      assert a + b == b;
    }
  }

  lemma WithTableCons(x: TableOrder, s: seq<TableOrder>, n: nat)
    ensures WithTable([x] + s, n) == (if x.table == n then [x] else []) + WithTable(s, n)
  {
    assert ([x] + s)[1..] == s;
  }

  /** Inserting puts `o` ahead of every record with its own number. */
  lemma {:induction false} InsertByTableStable(o: TableOrder, s: seq<TableOrder>, n: nat)
    requires SortedByTable(s)
    ensures WithTable(InsertByTable(o, s), n) == (if o.table == n then [o] else []) + WithTable(s, n)
  {
    if s == [] || o.table <= s[0].table {
      WithTableCons(o, s, n);
    } else {
      var tail := s[1..];
      assert SortedByTable(tail);
      var rest := InsertByTable(o, tail);
      assert InsertByTable(o, s) == [s[0]] + rest;
      WithTableCons(s[0], rest, n);
      InsertByTableStable(o, tail, n);
      assert s == [s[0]] + tail;
      WithTableCons(s[0], tail, n);
      if o.table == n {
        assert s[0].table != n;
        assert WithTable(InsertByTable(o, s), n) == WithTable(rest, n) == [o] + WithTable(tail, n);
        assert WithTable(s, n) == WithTable(tail, n);
      } else {
        assert WithTable(rest, n) == WithTable(tail, n);
      }
    }
  }

  /** The sort is stable: records with the same table number keep their relative order. */
  lemma {:induction false} SortByTableStable(s: seq<TableOrder>, n: nat)
    ensures WithTable(SortByTable(s), n) == WithTable(s, n)
  {
    if s != [] {
      SortByTableStable(s[1..], n);
      InsertByTableStable(s[0], SortByTable(s[1..]), n);
    }
  }

  /** The loaded records with number `n`: at most one when the loaded numbers are distinct. */
  lemma {:induction false} WithTableDistinct(s: seq<TableOrder>, n: nat)
    requires forall i, j :: 0 <= i < j < |s| ==> s[i].table != s[j].table
    ensures HasTable(s, n) ==> WithTable(s, n) == [s[IndexOfTable(s, n)]]
    ensures !HasTable(s, n) ==> WithTable(s, n) == []
  {
    if s != [] {
      WithTableDistinct(s[1..], n);
      if s[0].table == n {
        assert !HasTable(s[1..], n);
      } else if HasTable(s, n) {
        var j :| 0 <= j < |s| && s[j].table == n;
        assert s[1..][j - 1].table == n;
      }
    }
  }

  /** Index of the first record with number `n`. */
  function IndexOfTable(s: seq<TableOrder>, n: nat): (k: nat)
    requires HasTable(s, n)
    ensures k < |s| && s[k].table == n && forall i :: 0 <= i < k ==> s[i].table != n
  {
    if s[0].table == n then 0
    else
      assert HasTable(s[1..], n) by {
        var j :| 0 <= j < |s| && s[j].table == n;
        assert s[1..][j - 1].table == n;
      }
      IndexOfTable(s[1..], n) + 1
  }

  /** The defaults hold one record numbered `k` exactly when `k` is in 1..m and no loaded record has it. */
  lemma {:induction false} DefaultsWithTable(loaded: seq<TableOrder>, m: nat, k: nat)
    ensures WithTable(Defaults(loaded, m), k) ==
      if 1 <= k <= m && !HasTable(loaded, k) then [EmptyTable(k)] else []
  {
    if m > 0 {
      DefaultsWithTable(loaded, m - 1, k);
      var last := if HasTable(loaded, m) then [] else [EmptyTable(m)];
      WithTableAppend(Defaults(loaded, m - 1), last, k);
      if last != [] {
        assert last[1..] == [];
      }
    }
  }

  /** When the loaded records carry distinct numbers, the all-tables list holds exactly
      one record for each of 1..n: the loaded one, or else the empty default. */
  lemma ExactlyOnePerTable(loaded: seq<TableOrder>, m: nat, k: nat)
    requires forall i, j :: 0 <= i < j < |loaded| ==> loaded[i].table != loaded[j].table
    requires 1 <= k <= m
    ensures var r := SortByTable(loaded + Defaults(loaded, m));
      && (HasTable(loaded, k) ==> WithTable(r, k) == [loaded[IndexOfTable(loaded, k)]])
      && (!HasTable(loaded, k) ==> WithTable(r, k) == [EmptyTable(k)])
  {
    SortByTableStable(loaded + Defaults(loaded, m), k);
    WithTableAppend(loaded, Defaults(loaded, m), k);
    WithTableDistinct(loaded, k);
    DefaultsWithTable(loaded, m, k);
  }

  /** GET `/api/table/all`: the records read from `listing` (the table files the
      directory holds, in listing order), a default for each number 1..20 no
      record has, sorted by table number. */
  method AllTables(d: DataDir, listing: seq<nat>) returns (r: seq<TableOrder>)
    requires forall i :: 0 <= i < |listing| ==> listing[i] in d.tables
    ensures SortedByTable(r)
    ensures multiset(r) == multiset(Loaded(d.tables, listing) + Defaults(Loaded(d.tables, listing), 20))
    ensures forall n :: 1 <= n <= 20 ==> HasTable(r, n)
    ensures forall i :: 0 <= i < |listing| ==> d.tables[listing[i]] in r
    ensures r == SortByTable(Loaded(d.tables, listing) + Defaults(Loaded(d.tables, listing), 20))
    ensures (forall i, j :: 0 <= i < j < |listing| ==> d.tables[listing[i]].table != d.tables[listing[j]].table) ==>
      forall n :: 1 <= n <= 20 ==> |WithTable(r, n)| == 1
  {
    var tables: seq<TableOrder> := [];
    var i := 0;
    while i < |listing|
      invariant 0 <= i <= |listing|
      invariant tables == Loaded(d.tables, listing[..i])
    {
      assert listing[..i + 1][..i] == listing[..i];
      tables := tables + [d.tables[listing[i]]];
      i := i + 1;
    }
    assert listing[..i] == listing;
    ghost var loaded := tables;
    assert loaded == Loaded(d.tables, listing);
    var n := 1;
    while n <= 20
      invariant 1 <= n <= 21
      invariant tables == loaded + Defaults(loaded, n - 1)
    {
      HasTableBeforeDefault(loaded, n);
      if !HasTable(tables, n) {
        tables := tables + [EmptyTable(n)];
      }
      n := n + 1;
    }
    assert tables == loaded + Defaults(loaded, 20);
    r := SortByTable(tables);
    SortedResultFacts(d.tables, listing, 20, tables, r);
    LoadedExactlyOnce(d.tables, listing, 20, r);
  }

  /** With distinct numbers among the listed records, each of 1..n appears exactly once. */
  lemma LoadedExactlyOnce(tables: map<nat, TableOrder>, listing: seq<nat>, n: nat, r: seq<TableOrder>)
    requires forall i :: 0 <= i < |listing| ==> listing[i] in tables
    requires r == SortByTable(Loaded(tables, listing) + Defaults(Loaded(tables, listing), n))
    ensures (forall i, j :: 0 <= i < j < |listing| ==> tables[listing[i]].table != tables[listing[j]].table) ==>
      forall k :: 1 <= k <= n ==> |WithTable(r, k)| == 1
  {
    if forall i, j :: 0 <= i < j < |listing| ==> tables[listing[i]].table != tables[listing[j]].table {
      LoadedDistinct(tables, listing);
      OnePerTable(Loaded(tables, listing), n);
    }
  }

  lemma OnePerTable(loaded: seq<TableOrder>, m: nat)
    requires forall i, j :: 0 <= i < j < |loaded| ==> loaded[i].table != loaded[j].table
    ensures var r := SortByTable(loaded + Defaults(loaded, m));
      forall k :: 1 <= k <= m ==> |WithTable(r, k)| == 1
  {
    var r := SortByTable(loaded + Defaults(loaded, m));
    forall k | 1 <= k <= m ensures |WithTable(r, k)| == 1 {
      ExactlyOnePerTable(loaded, m, k);
    }
  }

  lemma LoadedDistinct(tables: map<nat, TableOrder>, listing: seq<nat>)
    requires forall i :: 0 <= i < |listing| ==> listing[i] in tables
    requires forall i, j :: 0 <= i < j < |listing| ==> tables[listing[i]].table != tables[listing[j]].table
    ensures var loaded := Loaded(tables, listing);
      forall i, j :: 0 <= i < j < |loaded| ==> loaded[i].table != loaded[j].table
  {
  }

  /** What the sort keeps: every loaded record and a record for each of 1..n. */
  lemma SortedResultFacts(tables: map<nat, TableOrder>, listing: seq<nat>, n: nat, s: seq<TableOrder>, r: seq<TableOrder>)
    requires forall i :: 0 <= i < |listing| ==> listing[i] in tables
    requires s == Loaded(tables, listing) + Defaults(Loaded(tables, listing), n)
    requires multiset(r) == multiset(s)
    ensures forall k :: 1 <= k <= n ==> HasTable(r, k)
    ensures forall i :: 0 <= i < |listing| ==> tables[listing[i]] in r
  {
    var loaded := Loaded(tables, listing);
    DefaultsCover(loaded, n);
    CoverageSurvivesSort(s, r, n);
    SortKeepsMembers(s, r);
    forall i | 0 <= i < |listing| ensures tables[listing[i]] in r {
      assert s[i] == loaded[i];
      assert s[i] in s;
    }
  }

  lemma CoverageSurvivesSort(s: seq<TableOrder>, r: seq<TableOrder>, n: nat)
    requires multiset(r) == multiset(s)
    requires forall k :: 1 <= k <= n ==> HasTable(s, k)
    ensures forall k :: 1 <= k <= n ==> HasTable(r, k)
  {
    forall k | 1 <= k <= n ensures HasTable(r, k) {
      assert HasTable(s, k);
      var j :| 0 <= j < |s| && s[j].table == k;
      assert s[j] in multiset(r);
      var m :| 0 <= m < |r| && r[m] == s[j];
    }
  }

  /** Sorting keeps every record it is given. */
  lemma SortKeepsMembers(s: seq<TableOrder>, r: seq<TableOrder>)
    requires multiset(r) == multiset(s)
    ensures forall x :: x in s ==> x in r
  {
    forall x | x in s ensures x in r {
      assert x in multiset(s);
    }
  }
}
