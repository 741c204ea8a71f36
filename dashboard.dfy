/**
 * The dashboard figures (app.py:428-449): active flavors left-joined with
 * their stock and ordered by name, a low-stock flag per row, the total stock
 * and the number of low rows. All of it is derived from the current tables.
 */
module Dashboard {
  import opened Schema

  /** `LOW_STOCK_LIMIT` (app.py:86). */
  const LowStockLimit: int := 10

  /** A row of the stock overview: `name`, `stock`, `Low`. */
  datatype Row = Row(name: string, stock: int, low: bool)

  /** `df["stock"] < LOW_STOCK_LIMIT` (app.py:445). */
  predicate IsLow(stock: int): (low: bool)
    ensures low ==> stock <= LowStockLimit - 1
    ensures !low ==> stock >= LowStockLimit
  {
    stock < LowStockLimit
  }

  /** `COALESCE(i.stock, 0)`: a flavor without an inventory row counts as 0. */
  function StockOf(stock: map<nat, int>, flavorId: nat): (s: int)
    ensures flavorId in stock ==> s == stock[flavorId]
    ensures flavorId !in stock ==> s == 0
    ensures (forall f :: f in stock ==> stock[f] >= 0) ==> s >= 0
  {
    if flavorId in stock then stock[flavorId] else 0
  }

  function RowOf(flavors: seq<Flavor>, stock: map<nat, int>, flavorId: nat): Row
    requires flavorId < |flavors|
  {
    Row(flavors[flavorId].name, StockOf(stock, flavorId), IsLow(StockOf(stock, flavorId)))
  }

  /** Reference count: how many of the first `n` flavors are active. */
  function ActiveCount(flavors: seq<Flavor>, n: nat): nat
    requires n <= |flavors|
  {
    if n == 0 then 0 else ActiveCount(flavors, n - 1) + (if flavors[n - 1].active then 1 else 0)
  }

  /**
   * The join over the first `n` flavors, inactive ones left out, in id order:
   * one row per active flavor.
   */
  function Joined(flavors: seq<Flavor>, stock: map<nat, int>, n: nat): (rows: seq<Row>)
    requires n <= |flavors|
    ensures |rows| == ActiveCount(flavors, n) <= n
    ensures rows == [] <==> forall f :: 0 <= f < n ==> !flavors[f].active
  {
    if n == 0 then []
    else Joined(flavors, stock, n - 1) + (if flavors[n - 1].active then [RowOf(flavors, stock, n - 1)] else [])
  }

  /**
   * The joined rows are exactly the active flavors among the first `n`, each
   * with its stock (0 when it has no inventory row) and its low flag.
   */
  lemma {:induction false} JoinedRows(flavors: seq<Flavor>, stock: map<nat, int>, n: nat)
    requires n <= |flavors|
    ensures forall r :: r in Joined(flavors, stock, n) ==>
      exists f :: 0 <= f < n && flavors[f].active && r == RowOf(flavors, stock, f)
    ensures forall f :: 0 <= f < n && flavors[f].active ==> RowOf(flavors, stock, f) in Joined(flavors, stock, n)
  {
    if n > 0 {
      JoinedRows(flavors, stock, n - 1);
    }
  }

  /** With unique flavor names (app.py:104), no two joined rows share a name. */
  lemma {:induction false} JoinedDistinctNames(flavors: seq<Flavor>, stock: map<nat, int>, n: nat)
    requires n <= |flavors|
    requires UniqueFlavorNames(flavors)
    ensures forall i, j :: 0 <= i < j < |Joined(flavors, stock, n)| ==>
      Joined(flavors, stock, n)[i].name != Joined(flavors, stock, n)[j].name
  {
    if n > 0 {
      JoinedDistinctNames(flavors, stock, n - 1);
      JoinedRows(flavors, stock, n - 1);
      var prev := Joined(flavors, stock, n - 1);
      forall i | 0 <= i < |prev|
        ensures prev[i].name != flavors[n - 1].name
      {
        assert prev[i] in prev;
        var f :| 0 <= f < n - 1 && flavors[f].active && prev[i] == RowOf(flavors, stock, f);
      }
    }
  }

  /** Every joined row is flagged low exactly when its stock is below the limit. */
  lemma {:induction false} JoinedFlags(flavors: seq<Flavor>, stock: map<nat, int>, n: nat)
    requires n <= |flavors|
    ensures forall r :: r in Joined(flavors, stock, n) ==> (r.low <==> r.stock < LowStockLimit)
  {
    if n > 0 {
      JoinedFlags(flavors, stock, n - 1);
    }
  }

  /** Reference figures: stock summed over the active flavors, in id order. */
  function ActiveStock(flavors: seq<Flavor>, stock: map<nat, int>, n: nat): int
    requires n <= |flavors|
  {
    if n == 0 then 0
    else ActiveStock(flavors, stock, n - 1) + (if flavors[n - 1].active then StockOf(stock, n - 1) else 0)
  }

  /** Reference figures: number of active flavors whose stock is low, in id order. */
  function ActiveLow(flavors: seq<Flavor>, stock: map<nat, int>, n: nat): nat
    requires n <= |flavors|
  {
    if n == 0 then 0
    else ActiveLow(flavors, stock, n - 1) + (if flavors[n - 1].active && IsLow(StockOf(stock, n - 1)) then 1 else 0)
  }

  /** `df["stock"].sum()`: never negative when no row is. */
  function TotalStock(rows: seq<Row>): (total: int)
    ensures (forall k :: 0 <= k < |rows| ==> rows[k].stock >= 0) ==> total >= 0
  {
    if rows == [] then 0 else rows[0].stock + TotalStock(rows[1..])
  }

  /** `df["Low"].sum()`: at most the number of rows, and 0 when no row is low. */
  function LowCount(rows: seq<Row>): (count: nat)
    ensures count <= |rows|
    ensures (forall k :: 0 <= k < |rows| ==> !rows[k].low) ==> count == 0
  {
    if rows == [] then 0 else (if rows[0].low then 1 else 0) + LowCount(rows[1..])
  }

  /** `df[df["Low"] == True]`: the rows of the low-stock alert, in order. */
  function LowRows(rows: seq<Row>): (low: seq<Row>)
    ensures forall r :: r in low ==> r in rows && r.low
    ensures forall r :: r in rows && r.low ==> r in low
  {
    if rows == [] then [] else (if rows[0].low then [rows[0]] else []) + LowRows(rows[1..])
  }

  /**
   * The alert distributes over concatenation: the low rows of a longer table
   * are those of its first part followed by those of the rest, so the alert
   * keeps the table's order.
   */
  lemma {:induction false} LowRowsAppend(a: seq<Row>, b: seq<Row>)
    ensures LowRows(a + b) == LowRows(a) + LowRows(b)
  {
    if a == [] {
      assert a + b == b;
    } else {
      assert (a + b)[1..] == a[1..] + b;
      LowRowsAppend(a[1..], b);
    }
  }

  /** The low count is the length of the low-stock alert, and at most the number of rows. */
  lemma {:induction false} LowCountIsAlertLength(rows: seq<Row>)
    ensures LowCount(rows) == |LowRows(rows)| <= |rows|
  {
    if rows != [] {
      LowCountIsAlertLength(rows[1..]);
    }
  }

  lemma {:induction false} TotalStockAppend(a: seq<Row>, b: seq<Row>)
    ensures TotalStock(a + b) == TotalStock(a) + TotalStock(b)
  {
    if a == [] {
      assert a + b == b;
    } else {
      assert (a + b)[1..] == a[1..] + b;
      TotalStockAppend(a[1..], b);
    }
  }

  lemma {:induction false} LowCountAppend(a: seq<Row>, b: seq<Row>)
    ensures LowCount(a + b) == LowCount(a) + LowCount(b)
  {
    if a == [] {
      assert a + b == b;
    } else {
      assert (a + b)[1..] == a[1..] + b;
      LowCountAppend(a[1..], b);
    }
  }

  /**
   * The figures of the joined rows are the reference figures: total stock is
   * the sum over active flavors with missing inventory as 0, and the low count
   * is the number of active flavors with stock below the limit.
   */
  lemma {:induction false} JoinedFigures(flavors: seq<Flavor>, stock: map<nat, int>, n: nat)
    requires n <= |flavors|
    ensures TotalStock(Joined(flavors, stock, n)) == ActiveStock(flavors, stock, n)
    ensures LowCount(Joined(flavors, stock, n)) == ActiveLow(flavors, stock, n)
  {
    JoinedTotal(flavors, stock, n);
    JoinedLow(flavors, stock, n);
  }

  lemma {:induction false} JoinedTotal(flavors: seq<Flavor>, stock: map<nat, int>, n: nat)
    requires n <= |flavors|
    ensures TotalStock(Joined(flavors, stock, n)) == ActiveStock(flavors, stock, n)
  {
    if n > 0 {
      JoinedTotal(flavors, stock, n - 1);
      var prev := Joined(flavors, stock, n - 1);
      var last := if flavors[n - 1].active then [RowOf(flavors, stock, n - 1)] else [];
      assert Joined(flavors, stock, n) == prev + last;
      TotalStockAppend(prev, last);
    }
  }

  lemma {:induction false} JoinedLow(flavors: seq<Flavor>, stock: map<nat, int>, n: nat)
    requires n <= |flavors|
    ensures LowCount(Joined(flavors, stock, n)) == ActiveLow(flavors, stock, n)
  {
    if n > 0 {
      JoinedLow(flavors, stock, n - 1);
      var prev := Joined(flavors, stock, n - 1);
      if flavors[n - 1].active {
        var row := RowOf(flavors, stock, n - 1);
        assert LowCount([row]) == if row.low then 1 else 0 by {
          assert [row][1..] == [];
        }
        assert Joined(flavors, stock, n) == prev + [row];
        LowCountAppend(prev, [row]);
        assert ActiveLow(flavors, stock, n) == ActiveLow(flavors, stock, n - 1) + (if row.low then 1 else 0);
      } else {
        assert Joined(flavors, stock, n) == prev;
        assert ActiveLow(flavors, stock, n) == ActiveLow(flavors, stock, n - 1);
      }
    }
  }

  /** Code-point lexicographic order on names. */
  predicate NameLe(a: string, b: string)
  {
    if a == [] then true
    else if b == [] then false
    else if a[0] != b[0] then a[0] < b[0]
    else NameLe(a[1..], b[1..])
  }

  lemma {:induction false} NameLeTotal(a: string, b: string)
    ensures NameLe(a, b) || NameLe(b, a)
  {
    if a != [] && b != [] && a[0] == b[0] {
      NameLeTotal(a[1..], b[1..]);
    }
  }

  lemma {:induction false} NameLeTransitive(a: string, b: string, c: string)
    requires NameLe(a, b) && NameLe(b, c)
    ensures NameLe(a, c)
  {
    if a != [] && b != [] && c != [] && a[0] == b[0] && b[0] == c[0] {
      NameLeTransitive(a[1..], b[1..], c[1..]);
    }
  }

  /** Each row's name is at most the next one's. */
  ghost predicate SortedByName(rows: seq<Row>)
  {
    forall k :: 0 < k < |rows| ==> NameLe(rows[k - 1].name, rows[k].name)
  }

  /** Adjacent order gives order between any two rows. */
  lemma {:induction false} SortedByNamePairwise(rows: seq<Row>, i: nat, j: nat)
    requires SortedByName(rows)
    requires i <= j < |rows|
    ensures NameLe(rows[i].name, rows[j].name)
    decreases j - i
  {
    if i == j {
      NameLeReflexive(rows[i].name);
    } else {
      SortedByNamePairwise(rows, i, j - 1);
      NameLeTransitive(rows[i].name, rows[j - 1].name, rows[j].name);
    }
  }

  lemma {:induction false} NameLeReflexive(a: string)
    ensures NameLe(a, a)
  {
    if a != [] {
      NameLeReflexive(a[1..]);
    }
  }

  /** Insert a row into name-ordered rows. */
  function Insert(x: Row, rows: seq<Row>): (r: seq<Row>)
    ensures |r| == |rows| + 1
    ensures multiset(r) == multiset(rows) + multiset{x}
    ensures r[0] == x || (rows != [] && r[0] == rows[0])
  {
    if rows == [] then [x]
    else if NameLe(x.name, rows[0].name) then [x] + rows
    else
      assert rows == [rows[0]] + rows[1..];
      [rows[0]] + Insert(x, rows[1..])
  }

  /** Inserting into ordered rows keeps them ordered. */
  lemma {:induction false} InsertSorted(x: Row, rows: seq<Row>)
    requires SortedByName(rows)
    ensures SortedByName(Insert(x, rows))
  {
    if rows != [] && !NameLe(x.name, rows[0].name) {
      NameLeTotal(x.name, rows[0].name);
      InsertSorted(x, rows[1..]);
    }
  }

  /** Inserting a row adds its stock to the total and its flag to the low count. */
  lemma {:induction false} InsertFigures(x: Row, rows: seq<Row>)
    ensures TotalStock(Insert(x, rows)) == x.stock + TotalStock(rows)
    ensures LowCount(Insert(x, rows)) == (if x.low then 1 else 0) + LowCount(rows)
  {
    if rows != [] && !NameLe(x.name, rows[0].name) {
      InsertFigures(x, rows[1..]);
    }
  }

  /** `ORDER BY f.name`: the rows ordered by name, as a permutation of themselves. */
  function SortByName(rows: seq<Row>): (r: seq<Row>)
    ensures |r| == |rows|
    ensures multiset(r) == multiset(rows)
    ensures SortedByName(r)
    ensures TotalStock(r) == TotalStock(rows)
    ensures LowCount(r) == LowCount(rows)
  {
    if rows == [] then []
    else
      assert rows == [rows[0]] + rows[1..];
      InsertSorted(rows[0], SortByName(rows[1..]));
      InsertFigures(rows[0], SortByName(rows[1..]));
      Insert(rows[0], SortByName(rows[1..]))
  }

  /** What the dashboard shows: "No stock yet", or the overview and its metrics. */
  datatype Summary =
    | NoStockYet
    | Figures(rows: seq<Row>, totalStock: int, lowCount: nat, lowAlert: seq<Row>)

  /**
   * The dashboard page. It shows figures exactly when some flavor is active;
   * the rows are the active flavors with their stock, one row each, ordered
   * by name; each
   * is flagged low exactly when its stock is below the limit; the total and
   * the low count are the reference figures over the active flavors; and the
   * alert lists exactly the low rows.
   */
  function Summarize(flavors: seq<Flavor>, stock: map<nat, int>): (d: Summary)
    ensures d.NoStockYet? <==> forall f :: 0 <= f < |flavors| ==> !flavors[f].active
    ensures d.Figures? ==>
      && SortedByName(d.rows)
      && multiset(d.rows) == multiset(Joined(flavors, stock, |flavors|))
      && |d.rows| == ActiveCount(flavors, |flavors|)
      && (forall r :: r in d.rows ==> (r.low <==> r.stock < LowStockLimit))
      && d.totalStock == ActiveStock(flavors, stock, |flavors|)
      && d.lowCount == ActiveLow(flavors, stock, |flavors|)
      && d.lowCount == |d.lowAlert| <= |d.rows|
      && (forall r :: r in d.lowAlert <==> r in d.rows && r.low)
  {
    var joined := Joined(flavors, stock, |flavors|);
    if joined == [] then NoStockYet
    else
      var rows := SortByName(joined);
      JoinedFigures(flavors, stock, |flavors|);
      LowCountIsAlertLength(rows);
      JoinedFlags(flavors, stock, |flavors|);
      assert forall r :: r in rows ==> r in joined by {
        forall r | r in rows
          ensures r in joined
        {
          assert r in multiset(rows);
        }
      }
      Figures(rows, TotalStock(rows), LowCount(rows), LowRows(rows))
  }

  /**
   * When no counter is negative, the total is non-negative and no active
   * flavor holds more than the total.
   */
  lemma {:induction false} ActiveStockBounds(flavors: seq<Flavor>, stock: map<nat, int>, n: nat)
    requires n <= |flavors|
    requires forall f :: f in stock ==> stock[f] >= 0
    ensures ActiveStock(flavors, stock, n) >= 0
    ensures forall f :: 0 <= f < n && flavors[f].active ==> StockOf(stock, f) <= ActiveStock(flavors, stock, n)
  {
    if n > 0 {
      ActiveStockBounds(flavors, stock, n - 1);
    }
  }

  /**
   * With no negative counter (what the ledger keeps), the dashboard total is
   * non-negative and no row shows a negative stock or more than the total.
   */
  lemma SummaryBounds(flavors: seq<Flavor>, stock: map<nat, int>)
    requires forall f :: f in stock ==> stock[f] >= 0
    ensures var d := Summarize(flavors, stock);
      d.Figures? ==> d.totalStock >= 0 && forall r :: r in d.rows ==> 0 <= r.stock <= d.totalStock
  {
    var d := Summarize(flavors, stock);
    if d.Figures? {
      var joined := Joined(flavors, stock, |flavors|);
      JoinedRows(flavors, stock, |flavors|);
      ActiveStockBounds(flavors, stock, |flavors|);
      forall r | r in d.rows
        ensures 0 <= r.stock <= d.totalStock
      {
        assert r in multiset(d.rows);
        assert r in joined;
      }
    }
  }

  /** Any two rows the dashboard shows are in name order, not just neighbours. */
  lemma SummaryInNameOrder(flavors: seq<Flavor>, stock: map<nat, int>, i: nat, j: nat)
    requires Summarize(flavors, stock).Figures?
    requires i <= j < |Summarize(flavors, stock).rows|
    ensures NameLe(Summarize(flavors, stock).rows[i].name, Summarize(flavors, stock).rows[j].name)
  {
    SortedByNamePairwise(Summarize(flavors, stock).rows, i, j);
  }
}
