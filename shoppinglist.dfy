/** `shopping_list_txt` (backend/api/services.py): the hand-written version
    of the shopping list. One loop folds the cart rows into two dictionaries
    keyed by ingredient name (`measurement_unit` keeps the unit of the first
    row with that name, `ingredient_amount` sums the amounts); a second loop
    appends one line per dictionary entry, in insertion order, to a fixed
    header. Unlike the grouped query of `download_shopping_cart`, rows that
    share a name but not a unit fall into one entry.

    The specification functions read a row sequence from the left, one row at
    a time, as the loop does; `FirstIndex` is the independent reference for
    "the first row with this name". */
module ShoppingList {

  import opened Common
  import opened Numerals
  import CartReport
  import TextOrder

  type Row = CartReport.CartLine

  /** The names that occur in the rows. */
  function NameSet(rows: seq<Row>): set<string> {
    set k | 0 <= k < |rows| :: rows[k].name
  }

  /** The keys of the dictionaries after the rows, in insertion order: each
      name where it first occurs. */
  function FirstNames(rows: seq<Row>): seq<string>
    decreases |rows|
  {
    if rows == [] then []
    else
      var p := FirstNames(rows[..|rows| - 1]);
      var n := rows[|rows| - 1].name;
      if n in p then p else p + [n]
  }

  /** `ingredient_amount[n]` after the rows: the sum of the amounts of the rows named `n`. */
  function SumByName(rows: seq<Row>, n: string): nat
    decreases |rows|
  {
    if rows == [] then 0
    else SumByName(rows[..|rows| - 1], n) + (if rows[|rows| - 1].name == n then rows[|rows| - 1].amount else 0)
  }

  /** `measurement_unit[n]` after the rows, `None` while `n` has not been seen. */
  function FirstUnit(rows: seq<Row>, n: string): Option<string>
    decreases |rows|
  {
    if rows == [] then None
    else
      var u := FirstUnit(rows[..|rows| - 1], n);
      if u.Some? then u
      else if rows[|rows| - 1].name == n then Some(rows[|rows| - 1].unit)
      else None
  }

  /** The position of the first row named `n`. */
  function FirstIndex(rows: seq<Row>, n: string): (k: nat)
    requires n in NameSet(rows)
    ensures k < |rows| && rows[k].name == n
    ensures forall m :: 0 <= m < k ==> rows[m].name != n
  {
    if rows[0].name == n then 0
    else
      assert n in NameSet(rows[1..]) by {
        var k :| 0 <= k < |rows| && rows[k].name == n;
        assert rows[1..][k - 1] == rows[k];
      }
      1 + FirstIndex(rows[1..], n)
  }

  lemma PrefixName(rows: seq<Row>, n: string)
    requires |rows| >= 1
    ensures n in NameSet(rows) <==> n in NameSet(rows[..|rows| - 1]) || rows[|rows| - 1].name == n
  {
    var p := rows[..|rows| - 1];
    if n in NameSet(rows) && rows[|rows| - 1].name != n {
      var k :| 0 <= k < |rows| && rows[k].name == n;
      assert p[k] == rows[k];
    }
    if n in NameSet(p) {
      var k :| 0 <= k < |p| && p[k].name == n;
      assert rows[k] == p[k];
    }
  }

  /** The dictionary keys are the names of the rows, each once. */
  lemma {:induction false} FirstNamesKeys(rows: seq<Row>)
    ensures forall n :: n in FirstNames(rows) <==> n in NameSet(rows)
    ensures NoDuplicates(FirstNames(rows))
    decreases |rows|
  {
    if rows != [] {
      var p := rows[..|rows| - 1];
      FirstNamesKeys(p);
      forall n ensures n in NameSet(rows) <==> n in NameSet(p) || rows[|rows| - 1].name == n {
        PrefixName(rows, n);
      }
    }
  }

  lemma {:induction false} FirstIndexPrefix(rows: seq<Row>, n: string)
    requires |rows| >= 1 && n in NameSet(rows[..|rows| - 1])
    ensures n in NameSet(rows) && FirstIndex(rows, n) == FirstIndex(rows[..|rows| - 1], n)
  {
    var p := rows[..|rows| - 1];
    PrefixName(rows, n);
    var k, kp := FirstIndex(rows, n), FirstIndex(p, n);
    assert p[kp] == rows[kp];
  }

  /** Names are listed in the order in which they first occur in the rows. */
  lemma {:induction false} FirstNamesOrder(rows: seq<Row>)
    ensures forall n :: n in FirstNames(rows) ==> n in NameSet(rows)
    ensures forall i, j :: 0 <= i < j < |FirstNames(rows)| ==>
              FirstIndex(rows, FirstNames(rows)[i]) < FirstIndex(rows, FirstNames(rows)[j])
    decreases |rows|
  {
    FirstNamesKeys(rows);
    if rows != [] {
      var p := rows[..|rows| - 1];
      var f, fp := FirstNames(rows), FirstNames(p);
      FirstNamesOrder(p);
      FirstNamesKeys(p);
      forall i | 0 <= i < |fp| ensures FirstIndex(rows, fp[i]) == FirstIndex(p, fp[i]) {
        FirstIndexPrefix(rows, fp[i]);
      }
      forall i, j | 0 <= i < j < |f| ensures FirstIndex(rows, f[i]) < FirstIndex(rows, f[j]) {
        if j < |fp| {
          assert f[i] == fp[i] && f[j] == fp[j];
        } else {
          var n := rows[|rows| - 1].name;
          assert f == fp + [n] && f[j] == n && f[i] == fp[i];
          assert n !in NameSet(p);
          assert FirstIndex(rows, n) == |rows| - 1;
          assert FirstIndex(p, fp[i]) < |p|;
        }
      }
    }
  }

  /** The unit kept for a name is the unit of its first row; a name never seen
      has no unit. */
  lemma {:induction false} FirstUnitIsFirst(rows: seq<Row>, n: string)
    ensures n !in NameSet(rows) ==> FirstUnit(rows, n) == None
    ensures n in NameSet(rows) ==> FirstUnit(rows, n) == Some(rows[FirstIndex(rows, n)].unit)
    decreases |rows|
  {
    if rows != [] {
      var p := rows[..|rows| - 1];
      FirstUnitIsFirst(p, n);
      PrefixName(rows, n);
      if n in NameSet(p) {
        FirstIndexPrefix(rows, n);
        assert p[FirstIndex(p, n)] == rows[FirstIndex(p, n)];
      }
    }
  }

  /** A name that is absent contributes nothing. */
  lemma {:induction false} SumByNameAbsent(rows: seq<Row>, n: string)
    requires n !in NameSet(rows)
    ensures SumByName(rows, n) == 0
    decreases |rows|
  {
    if rows != [] {
      PrefixName(rows, n);
      SumByNameAbsent(rows[..|rows| - 1], n);
    }
  }

  /** Where every row named `n` has unit `u`, the name's sum is the grouped
      query's total for `(n, u)`: both versions agree on such a name. */
  lemma {:induction false} SumByNameAgrees(rows: seq<Row>, n: string, u: string)
    requires forall k :: 0 <= k < |rows| && rows[k].name == n ==> rows[k].unit == u
    ensures SumByName(rows, n) == CartReport.SumFor(rows, CartReport.Key(n, u))
    decreases |rows|
  {
    if rows != [] {
      var p, last := rows[..|rows| - 1], rows[|rows| - 1];
      SumByNameAgrees(p, n, u);
      assert rows == p + [last];
      CartReport.SumForAppend(p, [last], CartReport.Key(n, u));
      assert [last][1..] == [];
    }
  }

  /** Rows with one name and two units: a single entry here, two in the grouped query. */
  lemma VersionsDiffer()
    ensures var rows := [CartReport.CartLine("Salt", "g", 10), CartReport.CartLine("Salt", "kg", 2)];
      && FirstNames(rows) == ["Salt"] && SumByName(rows, "Salt") == 12 && FirstUnit(rows, "Salt") == Some("g")
      && CartReport.Group(rows) == [CartReport.Total("Salt", "g", 10), CartReport.Total("Salt", "kg", 2)]
  {
    var a, b := CartReport.CartLine("Salt", "g", 10), CartReport.CartLine("Salt", "kg", 2);
    var rows := [a, b];
    assert rows[..1] == [a] && [a][..0] == [];
    assert rows[1..] == [b] && [b][1..] == [];
    var tb := [CartReport.Total("Salt", "kg", 2)];
    assert CartReport.Group([b]) == tb;
    assert "g" != "kg" && TextOrder.Less("g", "kg");
    assert CartReport.AddRow(tb, a) == [CartReport.Total("Salt", "g", 10)] + tb;
  }

  // The text.

  const TxtHeader := "Список покупок \n\n"

  /** `f'{ingredient} - {amount}{measurement_unit[ingredient]}\n'`: there is no
      space between the amount and the unit. */
  function NameLine(name: string, amount: nat, unit: string): (line: string)
    ensures |line| == |name| + 3 + |Decimal(amount)| + |unit| + 1
    ensures line[..|name|] == name && line[|name|..|name| + 3] == " - "
    ensures line[|name| + 3..|line| - 1 - |unit|] == Decimal(amount)
    ensures line[|line| - 1 - |unit|..|line| - 1] == unit && line[|line| - 1] == '\n'
  {
    name + " - " + Decimal(amount) + unit + "\n"
  }

  /** The unit the dictionary holds for `n` (empty for a name never seen). */
  function UnitOf(rows: seq<Row>, n: string): string {
    match FirstUnit(rows, n)
    case Some(u) => u
    case None => ""
  }

  function Lines(rows: seq<Row>, names: seq<string>): (lines: seq<string>)
    ensures |lines| == |names|
    ensures forall j :: 0 <= j < |names| ==> lines[j] == NameLine(names[j], SumByName(rows, names[j]), UnitOf(rows, names[j]))
  {
    seq(|names|, j requires 0 <= j < |names| => NameLine(names[j], SumByName(rows, names[j]), UnitOf(rows, names[j])))
  }

  /** The text the view sends: the header and one line per name, in first-appearance order. */
  function ListText(rows: seq<Row>): string {
    TxtHeader + Concat(Lines(rows, FirstNames(rows)))
  }

  /** The state of the first loop after reading `rows`: `order` is the
      dictionaries' shared insertion order, the two dictionaries have exactly
      those keys, and they hold the sums and the first units. */
  ghost predicate DictsHold(rows: seq<Row>, order: seq<string>, unit: map<string, string>, amount: map<string, nat>) {
    && order == FirstNames(rows)
    && (forall n :: n in amount <==> n in order)
    && (forall n :: n in unit <==> n in order)
    && (forall n :: n in amount ==> amount[n] == SumByName(rows, n))
    && (forall n :: n in unit ==> FirstUnit(rows, n) == Some(unit[n]))
    && (forall n :: n !in unit ==> FirstUnit(rows, n) == None)
  }

  /** An iteration of the first loop on a name already seen adds the amount
      and keeps the dictionaries in step with the rows read. */
  lemma DictsStepSeen(rows: seq<Row>, r: Row, order: seq<string>, unit: map<string, string>, amount: map<string, nat>)
    requires DictsHold(rows, order, unit, amount) && r.name in amount
    ensures DictsHold(rows + [r], order, unit, amount[r.name := amount[r.name] + r.amount])
  {
    var q := rows + [r];
    assert q[..|q| - 1] == rows && q[|q| - 1] == r;
  }

  /** An iteration of the first loop on a new name adds it to both
      dictionaries and to their insertion order. */
  lemma DictsStepNew(rows: seq<Row>, r: Row, order: seq<string>, unit: map<string, string>, amount: map<string, nat>)
    requires DictsHold(rows, order, unit, amount) && r.name !in amount
    ensures DictsHold(rows + [r], order + [r.name], unit[r.name := r.unit], amount[r.name := r.amount])
  {
    var q := rows + [r];
    assert q[..|q| - 1] == rows && q[|q| - 1] == r;
    FirstNamesKeys(rows);
    assert r.name !in order && r.name !in NameSet(rows);
    assert FirstNames(q) == order + [r.name];
    SumByNameAbsent(rows, r.name);
    assert SumByName(q, r.name) == r.amount && FirstUnit(q, r.name) == Some(r.unit);
  }

  /** After the first loop the dictionaries give every line of the text. */
  lemma DictsGiveLines(rows: seq<Row>, order: seq<string>, unit: map<string, string>, amount: map<string, nat>)
    requires DictsHold(rows, order, unit, amount)
    ensures order == FirstNames(rows)
    ensures forall j :: 0 <= j < |order| ==>
              order[j] in unit && order[j] in amount &&
              Lines(rows, order)[j] == NameLine(order[j], amount[order[j]], unit[order[j]])
  {
  }

  /** The first loop of `shopping_list_txt`: each dictionary is a map, and
      `order` is their shared insertion order. */
  method FoldRows(rows: seq<Row>) returns (order: seq<string>, unit: map<string, string>, amount: map<string, nat>)
    ensures DictsHold(rows, order, unit, amount)
  {
    unit, amount, order := map[], map[], [];
    var i := 0;
    while i < |rows|
      invariant 0 <= i <= |rows|
      invariant DictsHold(rows[..i], order, unit, amount)
    {
      var row := rows[i];
      assert rows[..i + 1] == rows[..i] + [row];
      if row.name in amount {
        DictsStepSeen(rows[..i], row, order, unit, amount);
        amount := amount[row.name := amount[row.name] + row.amount];
      } else {
        DictsStepNew(rows[..i], row, order, unit, amount);
        unit := unit[row.name := row.unit];
        amount := amount[row.name := row.amount];
        order := order + [row.name];
      }
      i := i + 1;
    }
    assert rows[..i] == rows;
  }

  /** The second loop of `shopping_list_txt`: `text_shop_list += line` for
      each line in turn. */
  method AppendLines(header: string, lines: seq<string>) returns (text: string)
    ensures text == header + Concat(lines)
  {
    text := header;
    var j := 0;
    while j < |lines|
      invariant 0 <= j <= |lines|
      invariant text == header + Concat(lines[..j])
    {
      ConcatPrefix(lines, j);
      AppendAssociative(header, Concat(lines[..j]), lines[j]);
      text := text + lines[j];
      j := j + 1;
    }
    assert lines[..j] == lines;
  }

  /** `shopping_list_txt`: fold the rows into the dictionaries, then append
      one line per entry, in insertion order, to the header. */
  method ShoppingListTxt(rows: seq<Row>) returns (text: string)
    ensures text == ListText(rows)
  {
    var order, unit, amount := FoldRows(rows);
    DictsGiveLines(rows, order, unit, amount);
    var lines := seq(|order|, j requires 0 <= j < |order| => NameLine(order[j], amount[order[j]], unit[order[j]]));
    assert lines == Lines(rows, FirstNames(rows));
    text := AppendLines(TxtHeader, lines);
  }

  /** What the text lists: every name of the cart exactly once, in
      first-appearance order, with the sum of all its rows' amounts and the
      unit of its first row. */
  lemma ListTextContents(rows: seq<Row>)
    ensures var names := FirstNames(rows);
      && (forall n :: n in names <==> n in NameSet(rows))
      && NoDuplicates(names)
      && (forall i, j :: 0 <= i < j < |names| ==> FirstIndex(rows, names[i]) < FirstIndex(rows, names[j]))
      && ListText(rows) == TxtHeader + Concat(Lines(rows, names))
      && (forall j :: 0 <= j < |names| ==>
            Lines(rows, names)[j] == NameLine(names[j], SumByName(rows, names[j]), rows[FirstIndex(rows, names[j])].unit))
  {
    var names := FirstNames(rows);
    FirstNamesKeys(rows);
    FirstNamesOrder(rows);
    forall j | 0 <= j < |names| ensures UnitOf(rows, names[j]) == rows[FirstIndex(rows, names[j])].unit {
      FirstUnitIsFirst(rows, names[j]);
    }
  }

  /** An empty cart gives the header alone. */
  lemma EmptyListText()
    ensures ListText([]) == TxtHeader
  {
  }
}
