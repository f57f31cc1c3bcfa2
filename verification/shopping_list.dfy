/** The shopping list of `download_shopping_cart`: the ingredient lines of
    the recipes in a cart are folded into an insertion-ordered dictionary
    from ingredient name to (unit, total amount), which is then rendered as
    one text line per ingredient.

    The dictionary is a sequence of entries whose names are pairwise
    distinct; its order is the dictionary's insertion order. */
module ShoppingList {
  import opened Common
  import opened Text

  /** One ingredient line of a recipe in the cart: the ingredient's name and
      measurement unit, and the amount the recipe asks for. */
  datatype Row = Row(name: string, unit: string, amount: nat)

  /** One key of the aggregated dictionary with its `unit` and `amount`. */
  datatype Entry = Entry(name: string, unit: string, amount: nat)

  function Names(es: seq<Entry>): (r: seq<string>)
    ensures |r| == |es|
    ensures forall i :: 0 <= i < |es| ==> r[i] == es[i].name
  {
    seq(|es|, i requires 0 <= i < |es| => es[i].name)
  }

  /** Where `name` sits in the dictionary, or its length when absent. */
  function Find(es: seq<Entry>, name: string): (k: nat)
    ensures k <= |es|
    ensures k < |es| ==> es[k].name == name
    ensures forall i :: 0 <= i < k ==> es[i].name != name
  {
    if es == [] then 0
    else if es[0].name == name then 0
    else 1 + Find(es[1..], name)
  }

  /** One turn of the loop over the rows: a known name gets the row's
      amount added (its unit stays); a new name is appended with the row's
      unit and amount. */
  function AddRow(acc: seq<Entry>, r: Row): seq<Entry>
    decreases |acc|
  {
    if acc == [] then [Entry(r.name, r.unit, r.amount)]
    else if acc[0].name == r.name then [acc[0].(amount := acc[0].amount + r.amount)] + acc[1..]
    else [acc[0]] + AddRow(acc[1..], r)
  }

  /** `generate_shopping_list`: the rows folded from first to last into an
      initially empty dictionary. */
  function Aggregate(rows: seq<Row>): seq<Entry>
    decreases |rows|
  {
    if rows == [] then [] else AddRow(Aggregate(rows[..|rows| - 1]), rows[|rows| - 1])
  }

  // ---- Reference definitions, independent of the fold ----

  /** Some row is about `name`. */
  predicate Mentions(rows: seq<Row>, name: string) {
    exists i :: 0 <= i < |rows| && rows[i].name == name
  }

  /** The sum of the amounts of the rows about `name`. */
  function Total(rows: seq<Row>, name: string): nat
    decreases |rows|
  {
    if rows == [] then 0
    else
      var last := rows[|rows| - 1];
      Total(rows[..|rows| - 1], name) + (if last.name == name then last.amount else 0)
  }

  /** The position of the first row about `name` (the number of rows when
      there is none). */
  function FirstIndex(rows: seq<Row>, name: string): (k: nat)
    ensures k <= |rows|
    ensures k < |rows| <==> Mentions(rows, name)
    ensures k < |rows| ==> rows[k].name == name
    ensures forall i :: 0 <= i < k ==> rows[i].name != name
  {
    if rows == [] then 0
    else if rows[0].name == name then 0
    else
      var k := 1 + FirstIndex(rows[1..], name);
      assert Mentions(rows, name) ==> Mentions(rows[1..], name) by {
        if Mentions(rows, name) {
          var i :| 0 <= i < |rows| && rows[i].name == name;
          assert rows[1..][i - 1] == rows[i];
        }
      }
      k
  }

  function SumRows(rows: seq<Row>): nat
    decreases |rows|
  {
    if rows == [] then 0 else SumRows(rows[..|rows| - 1]) + rows[|rows| - 1].amount
  }

  /** The amount of two row lists together is the sum of their amounts. */
  lemma {:induction false} SumRowsAppend(a: seq<Row>, b: seq<Row>)
    ensures SumRows(a + b) == SumRows(a) + SumRows(b)
    decreases |b|
  {
    if b != [] {
      var c := a + b;
      assert c[..|c| - 1] == a + b[..|b| - 1];
      assert c[|c| - 1] == b[|b| - 1];
      SumRowsAppend(a, b[..|b| - 1]);
    } else {
      assert a + b == a;
    }
  }

  function SumEntries(es: seq<Entry>): nat
    decreases |es|
  {
    if es == [] then 0 else es[0].amount + SumEntries(es[1..])
  }

  /** What the source promises of the dictionary built from `rows`: one
      entry per distinct name and no other; the total of every entry is the
      sum over its name's rows; its unit is that of the name's first row;
      and the entries follow the order in which names first occur. */
  ghost predicate Summarizes(rows: seq<Row>, agg: seq<Entry>) {
    && Distinct(Names(agg))
    && (forall n :: n in Names(agg) <==> Mentions(rows, n))
    && (forall i :: 0 <= i < |agg| ==> agg[i].amount == Total(rows, agg[i].name))
    && (forall i :: 0 <= i < |agg| ==>
          FirstIndex(rows, agg[i].name) < |rows|
          && agg[i].unit == rows[FirstIndex(rows, agg[i].name)].unit)
    && (forall i, j :: 0 <= i < j < |agg| ==>
          FirstIndex(rows, agg[i].name) < FirstIndex(rows, agg[j].name))
  }

  // ---- Proofs ----

  /** A turn of the loop either updates the amount at the name's position
      or appends a new entry; nothing else changes. */
  lemma {:induction false} AddRowShape(acc: seq<Entry>, r: Row)
    ensures var k := Find(acc, r.name);
      if k < |acc| then AddRow(acc, r) == acc[k := acc[k].(amount := acc[k].amount + r.amount)]
      else AddRow(acc, r) == acc + [Entry(r.name, r.unit, r.amount)]
    decreases |acc|
  {
    if acc != [] && acc[0].name != r.name {
      AddRowShape(acc[1..], r);
      var k := Find(acc[1..], r.name);
      if k < |acc[1..]| {
        assert [acc[0]] + acc[1..][k := acc[1..][k].(amount := acc[1..][k].amount + r.amount)]
          == acc[k + 1 := acc[k + 1].(amount := acc[k + 1].amount + r.amount)];
      } else {
        assert [acc[0]] + (acc[1..] + [Entry(r.name, r.unit, r.amount)])
          == acc + [Entry(r.name, r.unit, r.amount)];
      }
    }
  }

  lemma {:induction false} FirstIndexSnoc(rows: seq<Row>, r: Row, name: string)
    ensures FirstIndex(rows + [r], name) ==
      if FirstIndex(rows, name) < |rows| then FirstIndex(rows, name)
      else if r.name == name then |rows|
      else |rows| + 1
    decreases |rows|
  {
    if rows != [] {
      assert (rows + [r])[0] == rows[0];
      assert (rows + [r])[1..] == rows[1..] + [r];
      FirstIndexSnoc(rows[1..], r, name);
    }
  }

  lemma TotalSnoc(rows: seq<Row>, r: Row, name: string)
    ensures Total(rows + [r], name) == Total(rows, name) + (if r.name == name then r.amount else 0)
  {
    assert (rows + [r])[..|rows|] == rows;
  }

  /** The names of the rows, in row order, repeats included. */
  function RowNames(rows: seq<Row>): (r: seq<string>)
    ensures |r| == |rows|
    ensures forall i :: 0 <= i < |rows| ==> r[i] == rows[i].name
    ensures forall n :: n in r <==> Mentions(rows, n)
  {
    seq(|rows|, i requires 0 <= i < |rows| => rows[i].name)
  }

  /** The keys of the dictionary are the row names with every repeat after
      the first dropped: each distinct name once, in first-occurrence order. */
  lemma {:induction false} AggregateKeys(rows: seq<Row>)
    ensures Names(Aggregate(rows)) == Dedup(RowNames(rows))
    decreases |rows|
  {
    if rows != [] {
      var p := rows[..|rows| - 1];
      var r := rows[|rows| - 1];
      AggregateKeys(p);
      var acc := Aggregate(p);
      AddRowShape(acc, r);
      assert RowNames(rows)[..|rows| - 1] == RowNames(p);
      var k := Find(acc, r.name);
      if r.name in Names(acc) {
        assert k < |acc|;
        assert Names(Aggregate(rows)) == Names(acc);
      } else {
        assert Names(Aggregate(rows)) == Names(acc) + [r.name];
      }
    }
  }

  /** Every total is the sum over the rows of its name. */
  lemma {:induction false} AggregateTotals(rows: seq<Row>)
    ensures forall i :: 0 <= i < |Aggregate(rows)| ==>
      Aggregate(rows)[i].amount == Total(rows, Aggregate(rows)[i].name)
    decreases |rows|
  {
    if rows != [] {
      var p := rows[..|rows| - 1];
      var r := rows[|rows| - 1];
      assert rows == p + [r];
      AggregateTotals(p);
      AggregateKeys(p);
      var acc := Aggregate(p);
      var agg := Aggregate(rows);
      AddRowShape(acc, r);
      var k := Find(acc, r.name);
      assert Distinct(Names(acc));
      forall i | 0 <= i < |agg| ensures agg[i].amount == Total(rows, agg[i].name) {
        TotalSnoc(p, r, agg[i].name);
        if k < |acc| && i != k {
          assert Names(acc)[i] != Names(acc)[k];
          assert agg[i] == acc[i];
        } else if k == |acc| && i < |acc| {
          assert agg[i] == acc[i];
        } else if i == |acc| {
          assert r.name !in RowNames(p);
          TotalOfUnmentioned(p, r.name);
        }
      }
    }
  }

  /** A name no row mentions totals zero. */
  lemma {:induction false} TotalOfUnmentioned(rows: seq<Row>, name: string)
    requires !Mentions(rows, name)
    ensures Total(rows, name) == 0
    decreases |rows|
  {
    if rows != [] {
      var p := rows[..|rows| - 1];
      TotalOfUnmentioned(p, name);
    }
  }

  /** Every unit is the unit of the first row of its name. */
  lemma {:induction false} AggregateUnits(rows: seq<Row>)
    ensures forall i :: 0 <= i < |Aggregate(rows)| ==>
      FirstIndex(rows, Aggregate(rows)[i].name) < |rows|
      && Aggregate(rows)[i].unit == rows[FirstIndex(rows, Aggregate(rows)[i].name)].unit
    decreases |rows|
  {
    if rows != [] {
      var p := rows[..|rows| - 1];
      var r := rows[|rows| - 1];
      assert rows == p + [r];
      AggregateUnits(p);
      AggregateKeys(p);
      var acc := Aggregate(p);
      var agg := Aggregate(rows);
      AddRowShape(acc, r);
      forall i | 0 <= i < |agg|
        ensures FirstIndex(rows, agg[i].name) < |rows|
        ensures agg[i].unit == rows[FirstIndex(rows, agg[i].name)].unit
      {
        FirstIndexSnoc(p, r, agg[i].name);
        if i < |acc| {
          assert rows[FirstIndex(p, acc[i].name)] == p[FirstIndex(p, acc[i].name)];
        } else {
          assert Names(acc) == Dedup(RowNames(p));
          assert !Mentions(p, r.name);
        }
      }
    }
  }

  /** The entries follow the order in which their names first occur. */
  lemma {:induction false} AggregateOrder(rows: seq<Row>)
    ensures forall i, j :: 0 <= i < j < |Aggregate(rows)| ==>
      FirstIndex(rows, Aggregate(rows)[i].name) < FirstIndex(rows, Aggregate(rows)[j].name)
    decreases |rows|
  {
    if rows != [] {
      var p := rows[..|rows| - 1];
      var r := rows[|rows| - 1];
      assert rows == p + [r];
      AggregateOrder(p);
      AggregateKeys(p);
      var acc := Aggregate(p);
      var agg := Aggregate(rows);
      AddRowShape(acc, r);
      forall i, j | 0 <= i < j < |agg|
        ensures FirstIndex(rows, agg[i].name) < FirstIndex(rows, agg[j].name)
      {
        FirstIndexSnoc(p, r, agg[i].name);
        FirstIndexSnoc(p, r, agg[j].name);
        assert agg[i].name == acc[i].name;
        assert acc[i].name in Names(acc);
        if j < |acc| {
          assert agg[j].name == acc[j].name;
          assert acc[j].name in Names(acc);
        }
      }
    }
  }

  /** The fold builds a dictionary the reference definitions describe. */
  lemma AggregateSummarizes(rows: seq<Row>)
    ensures Summarizes(rows, Aggregate(rows))
  {
    AggregateKeys(rows);
    AggregateTotals(rows);
    AggregateUnits(rows);
    AggregateOrder(rows);
  }

  lemma {:induction false} SumEntriesAddRow(acc: seq<Entry>, r: Row)
    ensures SumEntries(AddRow(acc, r)) == SumEntries(acc) + r.amount
    decreases |acc|
  {
    if acc != [] && acc[0].name != r.name {
      SumEntriesAddRow(acc[1..], r);
      assert AddRow(acc, r)[1..] == AddRow(acc[1..], r);
    } else if acc != [] {
      assert AddRow(acc, r)[1..] == acc[1..];
    }
  }

  /** Amounts are conserved: the totals add up to the sum of all rows. */
  lemma {:induction false} AggregateConservesAmounts(rows: seq<Row>)
    ensures SumEntries(Aggregate(rows)) == SumRows(rows)
    decreases |rows|
  {
    if rows != [] {
      AggregateConservesAmounts(rows[..|rows| - 1]);
      SumEntriesAddRow(Aggregate(rows[..|rows| - 1]), rows[|rows| - 1]);
    }
  }

  /** The loop of `generate_shopping_list`, row by row. */
  method GenerateShoppingList(rows: seq<Row>) returns (ingredients: seq<Entry>)
    ensures Summarizes(rows, ingredients)
    ensures SumEntries(ingredients) == SumRows(rows)
    ensures rows == [] ==> ingredients == []
  {
    ingredients := [];
    var i := 0;
    while i < |rows|
      invariant 0 <= i <= |rows|
      invariant ingredients == Aggregate(rows[..i])
    {
      assert rows[..i + 1][..i] == rows[..i];
      ingredients := AddRow(ingredients, rows[i]);
      i := i + 1;
    }
    assert rows[..i] == rows;
    AggregateSummarizes(rows);
    AggregateConservesAmounts(rows);
  }

  // ---- Rendering ----

  /** `f'{name} ({unit}) — {amount}'`. */
  function Line(e: Entry): string {
    e.name + " (" + e.unit + ") — " + NatToString(e.amount)
  }

  function Lines(es: seq<Entry>): (r: seq<string>)
    ensures |r| == |es|
    ensures forall i :: 0 <= i < |es| ==> r[i] == Line(es[i])
  {
    seq(|es|, i requires 0 <= i < |es| => Line(es[i]))
  }

  /** `create_txt_file`: the lines joined by newlines, without a trailing
      newline. */
  function CreateTxtFile(es: seq<Entry>): string {
    Join(Lines(es), '\n')
  }

  /** No newline inside an ingredient name or unit. */
  predicate SingleLine(es: seq<Entry>) {
    forall i :: 0 <= i < |es| ==> '\n' !in es[i].name && '\n' !in es[i].unit
  }

  /** An empty dictionary renders as empty text. */
  lemma EmptyListRendersEmpty()
    ensures CreateTxtFile([]) == ""
  {
  }

  /** Cutting the text at newlines gives exactly one formatted line per
      entry, in dictionary order. */
  lemma {:induction false} RenderedLines(es: seq<Entry>)
    requires |es| > 0 && SingleLine(es)
    ensures Split(CreateTxtFile(es), '\n') == Lines(es)
  {
    forall i | 0 <= i < |es| ensures '\n' !in Lines(es)[i] {
      var digits := NatToString(es[i].amount);
      assert '\n' !in digits;
      assert Lines(es)[i] == es[i].name + (" (" + es[i].unit + ") — " + digits);
    }
    SplitJoin(Lines(es), '\n');
  }

  /** A name or unit of the dictionary comes from some row, so rows free of
      newlines give a dictionary free of them. */
  lemma AggregateSingleLine(rows: seq<Row>)
    requires forall i :: 0 <= i < |rows| ==> '\n' !in rows[i].name && '\n' !in rows[i].unit
    ensures SingleLine(Aggregate(rows))
    ensures rows != [] ==> |Aggregate(rows)| > 0
  {
    var agg := Aggregate(rows);
    AggregateSummarizes(rows);
    forall i | 0 <= i < |agg| ensures '\n' !in agg[i].name && '\n' !in agg[i].unit {
      assert agg[i].name in Names(agg);
    }
    if rows != [] {
      assert Mentions(rows, rows[0].name);
    }
  }

  /** The shopping list file of a cart: the lines of a dictionary that
      summarizes the cart's rows, one per distinct ingredient name, and empty
      text for an empty cart. */
  lemma ShoppingListFile(rows: seq<Row>)
    requires forall i :: 0 <= i < |rows| ==> '\n' !in rows[i].name && '\n' !in rows[i].unit
    ensures Summarizes(rows, Aggregate(rows))
    ensures rows == [] ==> CreateTxtFile(Aggregate(rows)) == ""
    ensures rows != [] ==> Split(CreateTxtFile(Aggregate(rows)), '\n') == Lines(Aggregate(rows))
  {
    AggregateSummarizes(rows);
    AggregateSingleLine(rows);
    if rows != [] {
      RenderedLines(Aggregate(rows));
    }
  }
}
