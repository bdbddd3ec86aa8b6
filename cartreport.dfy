/** The shopping list of `RecipeViewSet.download_shopping_cart`
    (backend/api/views.py): the recipe-ingredient rows of the user's cart are
    grouped by (ingredient name, measurement unit), their amounts summed with
    `Sum("amount")`, the groups ordered by name, and each group rendered as one
    line of a text attachment under a fixed header.

    The query's answer is specified by what it must satisfy (one entry per
    distinct pair, the exact sum, name order) and computed by a reference
    grouping, `Group`, which inserts each row into a list kept sorted by
    (name, unit); `GroupIsUnique` shows that this list is the only one with
    those properties. */
module CartReport {

  import opened Common
  import opened Numerals
  import opened TextOrder

  /** One recipe-ingredient row of a recipe in the cart, joined to its ingredient. */
  datatype CartLine = CartLine(name: string, unit: string, amount: nat)

  /** The grouping key `("ingredient__name", "ingredient__measurement_unit")`. */
  datatype Key = Key(name: string, unit: string)

  /** One row of the grouped query: the key and `total=Sum("amount")`. */
  datatype Total = Total(name: string, unit: string, total: nat)

  function KeyOf(l: CartLine): Key { Key(l.name, l.unit) }

  function TotalKey(t: Total): Key { Key(t.name, t.unit) }

  /** Order of the keys: by name, then by unit between equal names. */
  predicate KeyLess(a: Key, b: Key) {
    Less(a.name, b.name) || (a.name == b.name && Less(a.unit, b.unit))
  }

  lemma KeyLessIrreflexive(a: Key)
    ensures !KeyLess(a, a)
  {
    LessIrreflexive(a.name);
    LessIrreflexive(a.unit);
  }

  lemma KeyLessTransitive(a: Key, b: Key, c: Key)
    requires KeyLess(a, b) && KeyLess(b, c)
    ensures KeyLess(a, c)
  {
    if Less(a.name, b.name) && Less(b.name, c.name) {
      LessTransitive(a.name, b.name, c.name);
    } else if a.name == b.name && b.name == c.name {
      LessTransitive(a.unit, b.unit, c.unit);
    }
  }

  lemma KeyLessTotal(a: Key, b: Key)
    ensures a == b || KeyLess(a, b) || KeyLess(b, a)
    ensures KeyLess(a, b) ==> !KeyLess(b, a)
  {
    LessTotal(a.name, b.name);
    LessTotal(a.unit, b.unit);
    LessAsymmetric(a.name, b.name);
    LessAsymmetric(a.unit, b.unit);
    LessIrreflexive(a.name);
  }

  // Row-level specification: the distinct keys and the exact sums.

  /** The distinct (name, unit) pairs of the rows. */
  function RowKeys(rows: seq<CartLine>): (ks: set<Key>)
    ensures forall i :: 0 <= i < |rows| ==> KeyOf(rows[i]) in ks
  {
    if rows == [] then {} else {KeyOf(rows[0])} + RowKeys(rows[1..])
  }

  lemma {:induction false} RowKeysMember(rows: seq<CartLine>, k: Key)
    requires k in RowKeys(rows)
    ensures exists i :: 0 <= i < |rows| && KeyOf(rows[i]) == k
  {
    if KeyOf(rows[0]) != k {
      RowKeysMember(rows[1..], k);
      var i :| 0 <= i < |rows[1..]| && KeyOf(rows[1..][i]) == k;
      assert KeyOf(rows[i + 1]) == k;
    }
  }

  /** The exact sum of the amounts of the rows with key `k`. */
  function SumFor(rows: seq<CartLine>, k: Key): nat {
    if rows == [] then 0
    else (if KeyOf(rows[0]) == k then rows[0].amount else 0) + SumFor(rows[1..], k)
  }

  lemma {:induction false} SumForAbsent(rows: seq<CartLine>, k: Key)
    requires k !in RowKeys(rows)
    ensures SumFor(rows, k) == 0
  {
    if rows != [] {
      SumForAbsent(rows[1..], k);
    }
  }

  lemma {:induction false} SumForAppend(a: seq<CartLine>, b: seq<CartLine>, k: Key)
    ensures SumFor(a + b, k) == SumFor(a, k) + SumFor(b, k)
  {
    if a == [] {
      assert a + b == b;
    } else {
      assert (a + b)[1..] == a[1..] + b;
      SumForAppend(a[1..], b, k);
    }
  }

  /** Taking one occurrence of the head of `a` out of `b` keeps the multisets equal. */
  lemma MultisetRemove(a: seq<CartLine>, b: seq<CartLine>, j: nat)
    requires multiset(a) == multiset(b) && |a| >= 1 && j < |b| && b[j] == a[0]
    ensures multiset(a[1..]) == multiset(b[..j] + b[j + 1..])
  {
    var x := a[0];
    assert a == [x] + a[1..];
    assert b == b[..j] + [x] + b[j + 1..];
    assert multiset(a) == multiset{x} + multiset(a[1..]);
    assert multiset(b) == multiset(b[..j]) + multiset{x} + multiset(b[j + 1..]);
    assert multiset(b[..j] + b[j + 1..]) == multiset(b[..j]) + multiset(b[j + 1..]);
    var l, r := multiset(a[1..]), multiset(b[..j] + b[j + 1..]);
    assert multiset{x} + l == multiset{x} + r;
    forall y ensures l[y] == r[y] {
      assert (multiset{x} + l)[y] == (multiset{x} + r)[y];
    }
  }

  lemma SumForRemove(b: seq<CartLine>, j: nat, k: Key)
    requires j < |b|
    ensures SumFor(b, k) == (if KeyOf(b[j]) == k then b[j].amount else 0) + SumFor(b[..j] + b[j + 1..], k)
  {
    assert b == b[..j] + [b[j]] + b[j + 1..];
    SumForAppend(b[..j] + [b[j]], b[j + 1..], k);
    SumForAppend(b[..j], [b[j]], k);
    SumForAppend(b[..j], b[j + 1..], k);
    assert [b[j]][1..] == [];
  }

  /** Sums do not depend on the order of the rows. */
  lemma {:induction false} SumForPermutation(a: seq<CartLine>, b: seq<CartLine>, k: Key)
    requires multiset(a) == multiset(b)
    ensures SumFor(a, k) == SumFor(b, k)
    decreases |a|
  {
    if a == [] {
      assert b == [] by { assert |multiset(b)| == 0; }
    } else {
      assert a[0] in multiset(b);
      var j :| 0 <= j < |b| && b[j] == a[0];
      MultisetRemove(a, b, j);
      SumForPermutation(a[1..], b[..j] + b[j + 1..], k);
      SumForRemove(b, j, k);
    }
  }

  lemma {:induction false} RowKeysPermutation(a: seq<CartLine>, b: seq<CartLine>)
    requires multiset(a) == multiset(b)
    ensures RowKeys(a) == RowKeys(b)
  {
    forall k | k in RowKeys(a) ensures k in RowKeys(b) {
      RowKeysMember(a, k);
      var i :| 0 <= i < |a| && KeyOf(a[i]) == k;
      assert a[i] in multiset(b);
    }
    forall k | k in RowKeys(b) ensures k in RowKeys(a) {
      RowKeysMember(b, k);
      var i :| 0 <= i < |b| && KeyOf(b[i]) == k;
      assert b[i] in multiset(a);
    }
  }

  // The grouped list: sorted, keys, totals.

  /** Consecutive entries increase strictly in (name, unit) order. */
  predicate Ascending(ts: seq<Total>) {
    forall i :: 0 <= i < |ts| - 1 ==> KeyLess(TotalKey(ts[i]), TotalKey(ts[i + 1]))
  }

  /** The keys of the grouped entries. */
  function TotalKeys(ts: seq<Total>): (ks: set<Key>)
    ensures forall i :: 0 <= i < |ts| ==> TotalKey(ts[i]) in ks
  {
    if ts == [] then {} else {TotalKey(ts[0])} + TotalKeys(ts[1..])
  }

  /** The sum of the totals of the entries with key `k`. */
  function TotalFor(ts: seq<Total>, k: Key): nat {
    if ts == [] then 0
    else (if TotalKey(ts[0]) == k then ts[0].total else 0) + TotalFor(ts[1..], k)
  }

  lemma {:induction false} AscendingStrict(ts: seq<Total>, i: nat, j: nat)
    requires Ascending(ts) && i < j < |ts|
    ensures KeyLess(TotalKey(ts[i]), TotalKey(ts[j]))
    decreases j - i
  {
    if i + 1 < j {
      AscendingStrict(ts, i + 1, j);
      KeyLessTransitive(TotalKey(ts[i]), TotalKey(ts[i + 1]), TotalKey(ts[j]));
    }
  }

  lemma {:induction false} TotalKeysMember(ts: seq<Total>, k: Key)
    requires k in TotalKeys(ts)
    ensures exists i :: 0 <= i < |ts| && TotalKey(ts[i]) == k
  {
    if TotalKey(ts[0]) != k {
      TotalKeysMember(ts[1..], k);
      var i :| 0 <= i < |ts[1..]| && TotalKey(ts[1..][i]) == k;
      assert TotalKey(ts[i + 1]) == k;
    }
  }

  /** In an ascending list the first key is below every other key. */
  lemma HeadIsLeast(ts: seq<Total>, k: Key)
    requires Ascending(ts) && |ts| >= 1 && k in TotalKeys(ts[1..])
    ensures KeyLess(TotalKey(ts[0]), k)
  {
    TotalKeysMember(ts[1..], k);
    var i :| 0 <= i < |ts[1..]| && TotalKey(ts[1..][i]) == k;
    AscendingStrict(ts, 0, i + 1);
  }

  lemma AscendingTail(ts: seq<Total>)
    requires Ascending(ts) && |ts| >= 1
    ensures Ascending(ts[1..])
  {
    assert forall i :: 0 <= i < |ts[1..]| ==> ts[1..][i] == ts[i + 1];
  }

  lemma {:induction false} TotalForAbsent(ts: seq<Total>, k: Key)
    requires k !in TotalKeys(ts)
    ensures TotalFor(ts, k) == 0
  {
    if ts != [] {
      TotalForAbsent(ts[1..], k);
    }
  }

  /** In an ascending list each key occurs once, so its entry holds the whole total. */
  lemma {:induction false} TotalForAt(ts: seq<Total>, i: nat)
    requires Ascending(ts) && i < |ts|
    ensures TotalFor(ts, TotalKey(ts[i])) == ts[i].total
  {
    var k := TotalKey(ts[i]);
    AscendingTail(ts);
    if i == 0 {
      if k in TotalKeys(ts[1..]) {
        HeadIsLeast(ts, k);
        KeyLessIrreflexive(k);
      }
      TotalForAbsent(ts[1..], k);
    } else {
      AscendingStrict(ts, 0, i);
      KeyLessIrreflexive(k);
      TotalForAt(ts[1..], i - 1);
      assert ts[1..][i - 1] == ts[i];
    }
  }

  lemma {:induction false} AscendingSize(ts: seq<Total>)
    requires Ascending(ts)
    ensures |TotalKeys(ts)| == |ts|
  {
    if ts != [] {
      AscendingTail(ts);
      AscendingSize(ts[1..]);
      if TotalKey(ts[0]) in TotalKeys(ts[1..]) {
        HeadIsLeast(ts, TotalKey(ts[0]));
        KeyLessIrreflexive(TotalKey(ts[0]));
      }
    }
  }

  /** Adds one row to a list kept in key order: a row whose key is present
      adds its amount to that entry, any other row opens a new entry in place. */
  function AddRow(ts: seq<Total>, row: CartLine): (r: seq<Total>)
    ensures |r| >= 1
    ensures TotalKey(r[0]) == KeyOf(row) || (ts != [] && TotalKey(r[0]) == TotalKey(ts[0]))
  {
    if ts == [] then [Total(row.name, row.unit, row.amount)]
    else if TotalKey(ts[0]) == KeyOf(row) then [ts[0].(total := ts[0].total + row.amount)] + ts[1..]
    else if KeyLess(KeyOf(row), TotalKey(ts[0])) then [Total(row.name, row.unit, row.amount)] + ts
    else [ts[0]] + AddRow(ts[1..], row)
  }

  lemma {:induction false} AddRowAscending(ts: seq<Total>, row: CartLine)
    requires Ascending(ts)
    ensures Ascending(AddRow(ts, row))
  {
    if ts != [] && TotalKey(ts[0]) != KeyOf(row) && !KeyLess(KeyOf(row), TotalKey(ts[0])) {
      KeyLessTotal(KeyOf(row), TotalKey(ts[0]));
      AscendingTail(ts);
      AddRowAscending(ts[1..], row);
      var r := AddRow(ts, row);
      assert r == [ts[0]] + AddRow(ts[1..], row);
      assert forall i :: 1 <= i < |r| ==> r[i] == AddRow(ts[1..], row)[i - 1];
    }
  }

  lemma {:induction false} AddRowKeys(ts: seq<Total>, row: CartLine)
    ensures TotalKeys(AddRow(ts, row)) == TotalKeys(ts) + {KeyOf(row)}
  {
    var r := AddRow(ts, row);
    if ts == [] {
    } else if TotalKey(ts[0]) == KeyOf(row) {
      assert r[1..] == ts[1..];
    } else if KeyLess(KeyOf(row), TotalKey(ts[0])) {
      assert r[1..] == ts;
    } else {
      assert r[1..] == AddRow(ts[1..], row);
      AddRowKeys(ts[1..], row);
    }
  }

  lemma {:induction false} AddRowTotals(ts: seq<Total>, row: CartLine, k: Key)
    ensures TotalFor(AddRow(ts, row), k) == TotalFor(ts, k) + (if k == KeyOf(row) then row.amount else 0)
  {
    var r := AddRow(ts, row);
    if ts == [] {
      assert r[1..] == [];
    } else if TotalKey(ts[0]) == KeyOf(row) {
      assert r[1..] == ts[1..];
    } else if KeyLess(KeyOf(row), TotalKey(ts[0])) {
      assert r[1..] == ts;
    } else {
      assert r[1..] == AddRow(ts[1..], row);
      AddRowTotals(ts[1..], row, k);
    }
  }

  /** The grouped query: every row added in turn to an initially empty list. */
  function Group(rows: seq<CartLine>): seq<Total> {
    if rows == [] then [] else AddRow(Group(rows[1..]), rows[0])
  }

  lemma {:induction false} GroupInvariants(rows: seq<CartLine>)
    ensures Ascending(Group(rows))
    ensures TotalKeys(Group(rows)) == RowKeys(rows)
    ensures forall k :: TotalFor(Group(rows), k) == SumFor(rows, k)
  {
    if rows != [] {
      GroupInvariants(rows[1..]);
      AddRowAscending(Group(rows[1..]), rows[0]);
      AddRowKeys(Group(rows[1..]), rows[0]);
      forall k ensures TotalFor(Group(rows), k) == SumFor(rows, k) {
        AddRowTotals(Group(rows[1..]), rows[0], k);
      }
    }
  }

  /** The grouped list has exactly one entry per distinct (name, unit) pair of
      the cart, the entry's total is the exact sum of that pair's amounts, and
      the entries are ordered by ingredient name. */
  lemma GroupCorrect(rows: seq<CartLine>)
    ensures var g := Group(rows);
      && (forall k :: k in RowKeys(rows) <==> exists i :: 0 <= i < |g| && TotalKey(g[i]) == k)
      && (forall i, j :: 0 <= i < j < |g| ==> TotalKey(g[i]) != TotalKey(g[j]))
      && (forall i :: 0 <= i < |g| ==> g[i].total == SumFor(rows, TotalKey(g[i])))
      && (forall i, j :: 0 <= i < j < |g| ==> LessOrEqual(g[i].name, g[j].name))
      && |g| == |RowKeys(rows)|
  {
    var g := Group(rows);
    GroupInvariants(rows);
    AscendingSize(g);
    forall k | k in RowKeys(rows) ensures exists i :: 0 <= i < |g| && TotalKey(g[i]) == k {
      TotalKeysMember(g, k);
    }
    forall i, j | 0 <= i < j < |g|
      ensures TotalKey(g[i]) != TotalKey(g[j]) && LessOrEqual(g[i].name, g[j].name)
    {
      AscendingStrict(g, i, j);
      KeyLessIrreflexive(TotalKey(g[i]));
    }
    forall i | 0 <= i < |g| ensures g[i].total == SumFor(rows, TotalKey(g[i])) {
      TotalForAt(g, i);
    }
  }

  /** Two ascending lists with the same keys and the same totals are equal:
      the grouped list is determined by the rows' pairs and sums. */
  lemma {:induction false} GroupIsUnique(a: seq<Total>, b: seq<Total>)
    requires Ascending(a) && Ascending(b)
    requires TotalKeys(a) == TotalKeys(b)
    requires forall k :: TotalFor(a, k) == TotalFor(b, k)
    ensures a == b
    decreases |a|
  {
    if a == [] {
      assert b == [];
    } else {
      assert b != [] by { assert TotalKey(a[0]) in TotalKeys(a); }
      var ka, kb := TotalKey(a[0]), TotalKey(b[0]);
      AscendingTail(a);
      AscendingTail(b);
      if ka != kb {
        assert ka in TotalKeys(b[1..]) && kb in TotalKeys(a[1..]);
        HeadIsLeast(b, ka);
        HeadIsLeast(a, kb);
        KeyLessTotal(ka, kb);
      }
      TotalForAt(a, 0);
      TotalForAt(b, 0);
      assert a[0] == b[0];
      assert ka !in TotalKeys(a[1..]) by {
        if ka in TotalKeys(a[1..]) { HeadIsLeast(a, ka); KeyLessIrreflexive(ka); }
      }
      assert ka !in TotalKeys(b[1..]) by {
        if ka in TotalKeys(b[1..]) { HeadIsLeast(b, ka); KeyLessIrreflexive(ka); }
      }
      forall k ensures TotalFor(a[1..], k) == TotalFor(b[1..], k) {
        assert TotalFor(a, k) == (if ka == k then a[0].total else 0) + TotalFor(a[1..], k);
        assert TotalFor(b, k) == (if ka == k then b[0].total else 0) + TotalFor(b[1..], k);
      }
      assert TotalKeys(a[1..]) == TotalKeys(a) - {ka};
      assert TotalKeys(b[1..]) == TotalKeys(b) - {ka};
      GroupIsUnique(a[1..], b[1..]);
      assert a == [a[0]] + a[1..] && b == [b[0]] + b[1..];
    }
  }

  /** Reordering the cart rows does not change the grouped list. */
  lemma GroupPermutationInvariant(a: seq<CartLine>, b: seq<CartLine>)
    requires multiset(a) == multiset(b)
    ensures Group(a) == Group(b)
  {
    GroupInvariants(a);
    GroupInvariants(b);
    RowKeysPermutation(a, b);
    forall k ensures TotalFor(Group(a), k) == TotalFor(Group(b), k) {
      SumForPermutation(a, b, k);
    }
    GroupIsUnique(Group(a), Group(b));
  }

  lemma GroupExample()
    ensures Group([CartLine("Salt", "g", 10), CartLine("Sugar", "g", 5), CartLine("Salt", "g", 15)])
         == [Total("Salt", "g", 25), Total("Sugar", "g", 5)]
  {
    var salt10, sugar5, salt15 := CartLine("Salt", "g", 10), CartLine("Sugar", "g", 5), CartLine("Salt", "g", 15);
    var rows := [salt10, sugar5, salt15];
    assert rows[1..] == [sugar5, salt15] && rows[1..][1..] == [salt15] && rows[1..][1..][1..] == [];
    assert Group([salt15]) == [Total("Salt", "g", 15)] by {
      assert [salt15][1..] == [];
    }
    assert !Less("Sugar", "Salt") by {
      assert "Sugar"[0] == "Salt"[0] && "Sugar"[1] > "Salt"[1];
    }
    assert "Sugar" != "Salt" by { assert "Sugar"[1] != "Salt"[1]; }
    var t15 := [Total("Salt", "g", 15)];
    assert AddRow(t15, sugar5) == [Total("Salt", "g", 15)] + AddRow(t15[1..], sugar5);
    assert Group([sugar5, salt15]) == [Total("Salt", "g", 15), Total("Sugar", "g", 5)];
  }

  // The report.

  const Header := "Список покупок\n"

  /** One line of the report: `<name> - <total> (<unit>)` and a newline. */
  function RenderTotal(t: Total): (line: string)
    ensures |line| > |t.name| + |t.unit|
    ensures line[..|t.name|] == t.name
    ensures line[|line| - 1] == '\n'
  {
    t.name + " - " + Decimal(t.total) + " (" + t.unit + ")\n"
  }

  function RenderAll(ts: seq<Total>): (lines: seq<string>)
    ensures |lines| == |ts|
    ensures forall i :: 0 <= i < |ts| ==> lines[i] == RenderTotal(ts[i])
  {
    if ts == [] then [] else [RenderTotal(ts[0])] + RenderAll(ts[1..])
  }

  /** `download_shopping_cart`: the list handed to `HttpResponse`, the header
      followed by one line per grouped entry; the attachment body is its
      concatenation. */
  function DownloadShoppingCart(rows: seq<CartLine>): (lines: seq<string>)
    ensures |lines| == 1 + |Group(rows)| == 1 + |RowKeys(rows)| && lines[0] == Header
    ensures forall i :: 0 <= i < |Group(rows)| ==> lines[i + 1] == RenderTotal(Group(rows)[i])
  {
    GroupCorrect(rows);
    [Header] + RenderAll(Group(rows))
  }

  function ReportBody(rows: seq<CartLine>): string {
    Concat(DownloadShoppingCart(rows))
  }

  /** An empty cart gives the header alone. */
  lemma EmptyCartReport()
    ensures DownloadShoppingCart([]) == [Header]
    ensures ReportBody([]) == Header
  {
  }
}
