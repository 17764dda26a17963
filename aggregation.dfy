/** The chart series: rows grouped by country in first-seen order, with the
    per-country sums of the two daily rates (`chartBase`). */
module Aggregation {

  import opened Lists

  /** A table row. The rates are whole pence and cents. */
  datatype Row = Row(id: string, country: string, grade: string, lob: string, gbpPerDay: int, usdPerDay: int)

  datatype Currency = GBP | USD

  function Amount(r: Row, m: Currency): int {
    match m
    case GBP => r.gbpPerDay
    case USD => r.usdPerDay
  }

  /** The country of each row, in row order. */
  function Countries(rows: seq<Row>): (cs: seq<string>)
    ensures |cs| == |rows|
    ensures forall i :: 0 <= i < |rows| ==> cs[i] == rows[i].country
  {
    seq(|rows|, i requires 0 <= i < |rows| => rows[i].country)
  }

  /** The categories the charts show: each country of `rows` once, in first-seen order. */
  function Categories(rows: seq<Row>): seq<string> {
    Distinct(Countries(rows))
  }

  /** The sum of measure `m` over the rows whose country is `c`. */
  function Sum(rows: seq<Row>, c: string, m: Currency): int {
    if |rows| == 0 then 0
    else Sum(rows[..|rows| - 1], c, m) + (if rows[|rows| - 1].country == c then Amount(rows[|rows| - 1], m) else 0)
  }

  /** The sum of measure `m` over all rows. */
  function Total(rows: seq<Row>, m: Currency): int {
    if |rows| == 0 then 0 else Total(rows[..|rows| - 1], m) + Amount(rows[|rows| - 1], m)
  }

  /** The values of the per-country sums, summed over the categories `cats`. */
  function SumOverCategories(rows: seq<Row>, cats: seq<string>, m: Currency): int {
    if |cats| == 0 then 0 else SumOverCategories(rows, cats[..|cats| - 1], m) + Sum(rows, cats[|cats| - 1], m)
  }

  /** The accumulator record `chartBase` keeps per country (its unused count is left out). */
  datatype Totals = Totals(gbp: int, usd: int)

  /** `chartBase`: one category per country, in first-seen order, with the GBP and
      USD sums of that country's rows at the same index. */
  method ChartBase(data: seq<Row>) returns (categories: seq<string>, gbpValues: seq<int>, usdValues: seq<int>)
    ensures categories == Categories(data)
    ensures |gbpValues| == |categories| && |usdValues| == |categories|
    ensures forall i :: 0 <= i < |categories| ==>
              gbpValues[i] == Sum(data, categories[i], GBP) && usdValues[i] == Sum(data, categories[i], USD)
  {
    if |data| == 0 {
      return [], [], [];
    }
    var grouped, keys := GroupByCountry(data);
    GroupedValues(data, grouped, keys);
    categories := keys;
    gbpValues := seq(|keys|, i requires 0 <= i < |keys| && keys[i] in grouped => grouped[keys[i]].gbp);
    usdValues := seq(|keys|, i requires 0 <= i < |keys| && keys[i] in grouped => grouped[keys[i]].usd);
  }

  /** The `reduce` of `chartBase`: an accumulator keyed by country, updated row by
      row, with its keys in insertion order. */
  method GroupByCountry(data: seq<Row>) returns (grouped: map<string, Totals>, keys: seq<string>)
    ensures Grouped(data, grouped, keys)
  {
    grouped, keys := map[], [];
    var k := 0;
    GroupedEmpty(data[..k]);
    while k < |data|
      invariant 0 <= k <= |data|
      invariant Grouped(data[..k], grouped, keys)
    {
      PrefixStep(data, k);
      var grouped', keys' := Accumulate(grouped, keys, data[k]);
      GroupRow(data[..k], data[k], grouped, keys, grouped', keys');
      grouped, keys := grouped', keys';
      k := k + 1;
    }
    PrefixAll(data);
  }

  /** The reducer: create the entry of a country seen for the first time (appending
      it to the key order), then add the row's rates to it. */
  method Accumulate(acc: map<string, Totals>, keys: seq<string>, curr: Row)
    returns (acc': map<string, Totals>, keys': seq<string>)
    ensures Added(acc, keys, curr, acc', keys')
  {
    acc', keys' := acc, keys;
    if curr.country !in acc' {
      acc' := acc'[curr.country := Totals(0, 0)];
      keys' := keys' + [curr.country];
    }
    var entry := acc'[curr.country];
    acc' := acc'[curr.country := Totals(entry.gbp + curr.gbpPerDay, entry.usd + curr.usdPerDay)];
  }

  /** `after`/`keysAfter` are `before`/`keysBefore` with `row` added: its country's
      entry (zero if new, and then appended to the key order) grows by the row's rates. */
  predicate Added(before: map<string, Totals>, keysBefore: seq<string>, row: Row,
                  after: map<string, Totals>, keysAfter: seq<string>) {
    && keysAfter == (if row.country in before then keysBefore else keysBefore + [row.country])
    && var entry := if row.country in before then before[row.country] else Totals(0, 0);
       after == before[row.country := Totals(entry.gbp + row.gbpPerDay, entry.usd + row.usdPerDay)]
  }

  /** The accumulator `chartBase` builds from `rows`: one entry per country, holding
      that country's sums. */
  function Accumulated(rows: seq<Row>): map<string, Totals> {
    map c | c in Countries(rows) :: Totals(Sum(rows, c, GBP), Sum(rows, c, USD))
  }

  /** The accumulator state after folding `rows`: `keys` is its key order (what
      `Object.keys` returns). */
  ghost predicate Grouped(rows: seq<Row>, grouped: map<string, Totals>, keys: seq<string>) {
    keys == Categories(rows) && grouped == Accumulated(rows)
  }

  /** The empty accumulator is that of no rows. */
  lemma GroupedEmpty(rows: seq<Row>)
    requires |rows| == 0
    ensures Grouped(rows, map[], [])
  {
    assert Countries(rows) == [];
  }

  /** Reading the accumulator back in key order, as the two `map` projections do. */
  lemma GroupedValues(rows: seq<Row>, grouped: map<string, Totals>, keys: seq<string>)
    requires Grouped(rows, grouped, keys)
    ensures keys == Categories(rows)
    ensures forall i :: 0 <= i < |keys| ==>
              keys[i] in grouped && grouped[keys[i]] == Totals(Sum(rows, keys[i], GBP), Sum(rows, keys[i], USD))
  {
  }

  /** One step of the `reduce`: creating the entry of a new country and adding the row's rates. */
  lemma GroupRow(rows: seq<Row>, row: Row, before: map<string, Totals>, keysBefore: seq<string>,
                 after: map<string, Totals>, keysAfter: seq<string>)
    requires Grouped(rows, before, keysBefore)
    requires Added(before, keysBefore, row, after, keysAfter)
    ensures Grouped(rows + [row], after, keysAfter)
  {
    AppendCategories(rows, row);
    assert row.country in before <==> row.country in Categories(rows);
    AddedTotals(rows, row, before, after);
  }

  /** The map half of `GroupRow`. */
  lemma AddedTotals(rows: seq<Row>, row: Row, before: map<string, Totals>, after: map<string, Totals>)
    requires before == Accumulated(rows)
    requires var entry := if row.country in before then before[row.country] else Totals(0, 0);
             after == before[row.country := Totals(entry.gbp + row.gbpPerDay, entry.usd + row.usdPerDay)]
    ensures after == Accumulated(rows + [row])
  {
    var next := Accumulated(rows + [row]);
    AppendRow(rows, row);
    assert after.Keys == next.Keys;
    forall c | c in after
      ensures after[c] == next[c]
    {
      AddedEntry(rows, row, before, after, c);
    }
  }

  /** The entry of one country `c` after adding `row`. */
  lemma AddedEntry(rows: seq<Row>, row: Row, before: map<string, Totals>, after: map<string, Totals>, c: string)
    requires before == Accumulated(rows)
    requires var entry := if row.country in before then before[row.country] else Totals(0, 0);
             after == before[row.country := Totals(entry.gbp + row.gbpPerDay, entry.usd + row.usdPerDay)]
    requires c in after
    ensures c in Accumulated(rows + [row]) && after[c] == Accumulated(rows + [row])[c]
  {
    AppendRow(rows, row);
    if c != row.country {
      assert after[c] == before[c];
    } else if c !in before {
      SumAbsent(rows, c, GBP);
      SumAbsent(rows, c, USD);
    }
  }

  /** How appending one row extends the countries and the sums. */
  lemma AppendRow(rows: seq<Row>, r: Row)
    ensures Countries(rows + [r]) == Countries(rows) + [r.country]
    ensures forall c, m :: Sum(rows + [r], c, m) == Sum(rows, c, m) + (if r.country == c then Amount(r, m) else 0)
    ensures forall m :: Total(rows + [r], m) == Total(rows, m) + Amount(r, m)
  {
    var all := rows + [r];
    assert all[..|all| - 1] == rows;
  }

  /** How appending one row extends the categories: a new country goes last. */
  lemma AppendCategories(rows: seq<Row>, r: Row)
    ensures Categories(rows + [r]) ==
              if r.country in Categories(rows) then Categories(rows) else Categories(rows) + [r.country]
  {
    var all := rows + [r];
    AppendRow(rows, r);
    assert Countries(all)[..|all| - 1] == Countries(rows);
  }

  /** A country without rows sums to zero. */
  lemma {:induction false} SumAbsent(rows: seq<Row>, c: string, m: Currency)
    requires c !in Countries(rows)
    ensures Sum(rows, c, m) == 0
  {
    if |rows| > 0 {
      var init := rows[..|rows| - 1];
      assert rows == init + [rows[|rows| - 1]];
      AppendRow(init, rows[|rows| - 1]);
      SumAbsent(init, c, m);
    }
  }

  /** The categories are exactly the countries that occur in the rows, each once;
      no rows give no categories. */
  lemma CategoriesExactlyOnce(rows: seq<Row>)
    ensures forall c :: c in Categories(rows) <==> exists i :: 0 <= i < |rows| && rows[i].country == c
    ensures NoDuplicates(Categories(rows))
    ensures |rows| == 0 <==> Categories(rows) == []
  {
    var cs := Countries(rows);
    forall c | c in Categories(rows)
      ensures exists i :: 0 <= i < |rows| && rows[i].country == c
    {
      var i := IndexOf(cs, c);
      assert rows[i].country == c;
    }
    if |rows| > 0 {
      assert cs[0] in Categories(rows);
    }
  }

  /** The categories appear in the order in which their countries first occur among the rows. */
  lemma CategoriesFirstSeen(rows: seq<Row>, i: int, j: int)
    requires 0 <= i < j < |Categories(rows)|
    ensures IndexOf(Countries(rows), Categories(rows)[i]) < IndexOf(Countries(rows), Categories(rows)[j])
  {
    DistinctFirstSeenOrder(Countries(rows), i, j);
  }

  /** The per-country sum of a concatenation is the sum of the parts' sums. */
  lemma {:induction false} SumConcat(a: seq<Row>, b: seq<Row>, c: string, m: Currency)
    ensures Sum(a + b, c, m) == Sum(a, c, m) + Sum(b, c, m)
  {
    if |b| == 0 {
      assert a + b == a;
    } else {
      var init, y := b[..|b| - 1], b[|b| - 1];
      assert b == init + [y];
      assert a + b == (a + init) + [y];
      AppendRow(a + init, y);
      AppendRow(init, y);
      SumConcat(a, init, c, m);
    }
  }

  /** Taking the row at `k` out of `b` takes its amount out of the sums. */
  lemma SumRemoveAt(b: seq<Row>, k: nat, c: string, m: Currency)
    requires k < |b|
    ensures Sum(b, c, m) == Sum(b[..k] + b[k + 1..], c, m) + (if b[k].country == c then Amount(b[k], m) else 0)
  {
    assert b == b[..k] + [b[k]] + b[k + 1..];
    SumConcat(b[..k] + [b[k]], b[k + 1..], c, m);
    SumConcat(b[..k], [b[k]], c, m);
    SumConcat(b[..k], b[k + 1..], c, m);
    AppendRow([], b[k]);
    assert [] + [b[k]] == [b[k]];
  }

  /** The per-country sums do not depend on the order of the rows. */
  lemma {:induction false} SumPermutation(a: seq<Row>, b: seq<Row>, c: string, m: Currency)
    requires multiset(a) == multiset(b)
    ensures Sum(a, c, m) == Sum(b, c, m)
    decreases |a|
  {
    if |a| == 0 {
      assert |b| == |multiset(b)| == 0;
    } else {
      var init, x := a[..|a| - 1], a[|a| - 1];
      assert a == init + [x];
      assert x in multiset(b);
      var k := IndexOf(b, x);
      var rest := b[..k] + b[k + 1..];
      MultisetRemoveAt(b, k);
      assert multiset(a) == multiset(init) + multiset{x};
      MultisetCancel(multiset(init), multiset(rest), x);
      SumPermutation(init, rest, c, m);
      SumRemoveAt(b, k, c, m);
      AppendRow(init, x);
    }
  }

  /** Adding one row adds its amount to the category sums once, if its country is listed. */
  lemma {:induction false} SumOverCategoriesStep(rows: seq<Row>, r: Row, cats: seq<string>, m: Currency)
    requires NoDuplicates(cats)
    ensures SumOverCategories(rows + [r], cats, m) ==
              SumOverCategories(rows, cats, m) + (if r.country in cats then Amount(r, m) else 0)
  {
    if |cats| > 0 {
      var init, last := cats[..|cats| - 1], cats[|cats| - 1];
      assert cats == init + [last];
      assert NoDuplicates(init);
      assert last !in init;
      SumOverCategoriesStep(rows, r, init, m);
      AppendRow(rows, r);
    }
  }

  /** The bars add up to the table: summing the per-category sums gives the total
      over all rows. */
  lemma {:induction false} CategoryTotalsAgree(rows: seq<Row>, m: Currency)
    ensures SumOverCategories(rows, Categories(rows), m) == Total(rows, m)
  {
    if |rows| > 0 {
      CategoryTotalsAgree(rows[..|rows| - 1], m);
      CategoryTotalsLast(rows, m);
    }
  }

  /** `CategoryTotalsStep` for a non-empty sequence and its last row. */
  lemma CategoryTotalsLast(rows: seq<Row>, m: Currency)
    requires |rows| > 0
    requires var init := rows[..|rows| - 1]; SumOverCategories(init, Categories(init), m) == Total(init, m)
    ensures SumOverCategories(rows, Categories(rows), m) == Total(rows, m)
  {
    var init, r := rows[..|rows| - 1], rows[|rows| - 1];
    assert rows == init + [r];
    CategoryTotalsStep(init, r, m);
  }

  /** Appending one row keeps the bars and the table total in agreement. */
  lemma CategoryTotalsStep(rows: seq<Row>, r: Row, m: Currency)
    requires SumOverCategories(rows, Categories(rows), m) == Total(rows, m)
    ensures SumOverCategories(rows + [r], Categories(rows + [r]), m) == Total(rows + [r], m)
  {
    var cats, all := Categories(rows), rows + [r];
    assert all[..|rows|] == rows;
    assert Total(all, m) == Total(rows, m) + Amount(r, m);
    AppendCategories(rows, r);
    SumOverCategoriesStep(rows, r, cats, m);
    if r.country in cats {
      assert Categories(all) == cats;
    } else {
      assert Categories(all) == cats + [r.country];
      NewCategoryBar(rows, r, m);
    }
  }

  /** The bar of a country first seen in the appended row holds just that row's amount. */
  lemma NewCategoryBar(rows: seq<Row>, r: Row, m: Currency)
    requires r.country !in Categories(rows)
    ensures SumOverCategories(rows + [r], Categories(rows) + [r.country], m) ==
              SumOverCategories(rows + [r], Categories(rows), m) + Amount(r, m)
  {
    var cats, all := Categories(rows), rows + [r];
    var cats' := cats + [r.country];
    assert cats'[..|cats|] == cats;
    assert r.country !in Countries(rows);
    SumAbsent(rows, r.country, m);
    AppendRow(rows, r);
    assert Sum(all, r.country, m) == Amount(r, m);
  }
}
