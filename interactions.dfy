/** How chart events are resolved against the category axis, and which items are
    drawn as active. An index outside the axis reads as `undefined`; it is
    represented here by the empty category "", which every consumer treats the
    same way (`filter(Boolean)`, `if (c)`, `?? ""`). */
module Interactions {

  import opened Wrappers
  import opened Selection
  import opened Aggregation

  /** The `dataIndex` of a brush event: one index or a list of indices. */
  datatype BrushIndex = Scalar(index: int) | Indexes(indexes: seq<int>)

  /** The brushed indices; a missing batch, selection or index reads as `[]`, and a
      single index as the one-element list. */
  function BrushedIndexes(payload: Option<BrushIndex>): seq<int> {
    match payload
    case None => []
    case Some(Scalar(i)) => [i]
    case Some(Indexes(ix)) => ix
  }

  /** `categories[i]`: the category at `i` if `i` is on the axis, otherwise `undefined`. */
  function Lookup(categories: seq<string>, i: int): Option<string> {
    if 0 <= i < |categories| then Some(categories[i]) else None
  }

  /** `categories[i] ?? ""`: the category at `i`, with "" for an index outside the axis. */
  function CategoryAt(categories: seq<string>, i: int): (c: string)
    ensures 0 <= i < |categories| ==> c == categories[i]
    ensures !(0 <= i < |categories|) ==> c == ""
    ensures c != "" ==> c in categories
  {
    match Lookup(categories, i)
    case Some(c) => c
    case None => ""
  }

  /** `indexes.map((i) => categories[i]).filter(Boolean)`. */
  function ResolveIndexes(categories: seq<string>, indexes: seq<int>): (countries: seq<string>)
    ensures |countries| <= |indexes|
    ensures forall j :: 0 <= j < |countries| ==> countries[j] != "" && countries[j] in categories
    ensures forall j :: 0 <= j < |indexes| && 0 <= indexes[j] < |categories| && categories[indexes[j]] != "" ==>
              categories[indexes[j]] in countries
  {
    if |indexes| == 0 then []
    else
      var c := CategoryAt(categories, indexes[0]);
      (if c != "" then [c] else []) + ResolveIndexes(categories, indexes[1..])
  }

  /** The countries a brush event selects, in brushed index order. */
  function ResolveBrush(categories: seq<string>, payload: Option<BrushIndex>): (countries: seq<string>)
    ensures payload.None? ==> countries == []
    ensures forall j :: 0 <= j < |countries| ==> countries[j] != "" && countries[j] in categories
    ensures forall i :: i in BrushedIndexes(payload) && 0 <= i < |categories| && categories[i] != "" ==>
              categories[i] in countries
  {
    var ix := BrushedIndexes(payload);
    assert forall i :: i in ix && 0 <= i < |categories| && categories[i] != "" ==> categories[i] in ResolveIndexes(categories, ix) by {
      forall i | i in ix && 0 <= i < |categories| && categories[i] != ""
        ensures categories[i] in ResolveIndexes(categories, ix)
      {
        var j :| 0 <= j < |ix| && ix[j] == i;
      }
    }
    ResolveIndexes(categories, ix)
  }

  /** Resolution works index by index and keeps the brushed order. */
  lemma {:induction false} ResolveConcat(categories: seq<string>, a: seq<int>, b: seq<int>)
    ensures ResolveIndexes(categories, a + b) == ResolveIndexes(categories, a) + ResolveIndexes(categories, b)
  {
    if |a| == 0 {
      assert a + b == b;
    } else {
      assert (a + b)[0] == a[0];
      assert (a + b)[1..] == a[1..] + b;
      ResolveConcat(categories, a[1..], b);
    }
  }

  /** One brushed index resolves to its category, or to nothing when it is outside
      the axis or names the empty category; a scalar index is the one-element list. */
  lemma ResolveSingle(categories: seq<string>, i: int)
    ensures ResolveBrush(categories, Some(Scalar(i))) == ResolveBrush(categories, Some(Indexes([i])))
    ensures ResolveBrush(categories, Some(Scalar(i))) ==
              if 0 <= i < |categories| && categories[i] != "" then [categories[i]] else []
  {
    assert [i][1..] == [];
  }

  /** A missing payload resolves to nothing, so the brush handler does nothing. */
  lemma ResolveMissing(categories: seq<string>)
    ensures ResolveBrush(categories, None) == []
  {
  }

  /** The category the click handler toggles: the clicked one, if it exists and is not empty. */
  function ClickTarget(categories: seq<string>, i: int): (target: Option<string>)
    ensures target.Some? <==> 0 <= i < |categories| && categories[i] != ""
    ensures target.Some? ==> target.value == categories[i]
  {
    var c := CategoryAt(categories, i);
    if c != "" then Some(c) else None
  }

  /** `selectedList.includes(c)`: a category is active iff it is in the parsed selection. */
  predicate IsActive(selected: string, c: string)
    ensures IsActive(selected, c) ==> c != "" && Separator !in c
    ensures selected == "" ==> !IsActive(selected, c)
  {
    c in Parse(selected)
  }

  /** The colour rule of the bar series: `const c = categories[dataIndex] ?? ""`, then `includes(c)`. */
  predicate BarActive(selected: string, categories: seq<string>, dataIndex: int) {
    IsActive(selected, CategoryAt(categories, dataIndex))
  }

  /** The colour rule of the line series: `const c = categories[dataIndex]`, then `includes(c ?? "")`. */
  predicate LineActive(selected: string, categories: seq<string>, dataIndex: int) {
    var c := Lookup(categories, dataIndex);
    match c
    case Some(k) => IsActive(selected, k)
    case None => IsActive(selected, "")
  }

  /** The highlight rule of a table row: `selectedList.includes(row.original.country)`. */
  predicate RowActive(selected: string, row: Row) {
    IsActive(selected, row.country)
  }

  /** The empty category is never active, so an item outside the axis is always drawn
      inactive; on the axis an item is active iff its category is selected. */
  lemma InactiveOutsideAxis(selected: string, categories: seq<string>, dataIndex: int)
    ensures !IsActive(selected, "")
    ensures !(0 <= dataIndex < |categories|) ==>
              !BarActive(selected, categories, dataIndex) && !LineActive(selected, categories, dataIndex)
    ensures 0 <= dataIndex < |categories| ==>
              (BarActive(selected, categories, dataIndex) <==> IsActive(selected, categories[dataIndex]))
  {
  }

  /** The bar, the line and the table row of the same country are highlighted alike,
      although the two series apply the `?? ""` default at different places. */
  lemma HighlightConsistent(selected: string, categories: seq<string>, dataIndex: int, row: Row)
    ensures BarActive(selected, categories, dataIndex) <==> LineActive(selected, categories, dataIndex)
    ensures 0 <= dataIndex < |categories| && row.country == categories[dataIndex] ==>
              (BarActive(selected, categories, dataIndex) <==> RowActive(selected, row))
  {
  }

  /** Clicking (or toggling) a key flips its highlight and leaves every other category's. */
  lemma ToggleFlipsHighlight(selected: string, v: string, c: string)
    requires IsKey(v)
    ensures IsActive(ToggleSelected(selected, v), v) <==> !IsActive(selected, v)
    ensures c != v ==> (IsActive(ToggleSelected(selected, v), c) <==> IsActive(selected, c))
  {
    ToggleSelectedMembership(selected, v);
  }

  /** The brush of indices 0, 2 and 5 over six categories selects the first, third and sixth. */
  lemma BrushExample()
    ensures ResolveBrush(["A", "B", "C", "D", "E", "F"], Some(Indexes([0, 2, 5]))) == ["A", "C", "F"]
  {
  }
}
