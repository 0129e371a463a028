/**
  How a section is laid out on the public project page
  (src/components/project/SectionRenderer.tsx): its elements in a sorted
  copy, grouped by column when the section has more than one, the
  two-column layout showing groups 0 and 1, and any other column count
  showing the sorted list in one column.
*/
module SectionRenderer {
  import opened Wrappers
  import opened Js
  import opened Ordering
  import opened Types

  /** The sorted copy of the elements, or `None` when the section has none
      and renders nothing. The copy is ordered by `order_index` (missing
      counts as 0), holds the same elements, and keeps the input order
      among equal orders. */
  function SortedElements(s: Section): (r: Option<seq<Element>>)
    ensures r.None? <==> s.elements == []
    ensures r.Some? ==> SortedBy(r.value, OrderKey) && multiset(r.value) == multiset(s.elements)
    ensures r.Some? ==> forall k :: WithKey(r.value, OrderKey, k) == WithKey(s.elements, OrderKey, k)
  {
    if s.elements == [] then None
    else
      var r := SortBy(s.elements, OrderKey);
      forall k ensures WithKey(r, OrderKey, k) == WithKey(s.elements, OrderKey, k) {
        SortByStable(s.elements, OrderKey, k);
      }
      Some(r)
  }

  /** `section.columns || 1` */
  function ColumnCount(s: Section): (c: int)
    ensures c != 0
    ensures s.columns != 0 ==> c == s.columns
    ensures s.columns == 0 ==> c == 1
  {
    if s.columns == 0 then 1 else s.columns
  }

  /** The group of the element at sorted position `index`: its
      `column_index` when it has one, otherwise `index % columns`. */
  function ColumnOf(e: Element, index: nat, columns: int): int
    requires columns > 1
  {
    if e.column_index.Some? then e.column_index.value else index % columns
  }

  /** The groups of `sorted`, filled element by element: each element is
      appended to the group of its column. */
  function Groups(sorted: seq<Element>, columns: int): map<int, seq<Element>>
    requires columns > 1
    decreases |sorted|
  {
    if sorted == [] then map[]
    else
      var n := |sorted| - 1;
      var g := Groups(sorted[..n], columns);
      var k := ColumnOf(sorted[n], n, columns);
      g[k := (if k in g then g[k] else []) + [sorted[n]]]
  }

  /** The `forEach` that fills `elementsByColumn`, run only when the
      section has more than one column. */
  method GroupByColumn(sorted: seq<Element>, columns: int) returns (groups: map<int, seq<Element>>)
    ensures columns > 1 ==> groups == Groups(sorted, columns)
    ensures columns <= 1 ==> groups == map[]
  {
    groups := map[];
    if columns > 1 {
      for index := 0 to |sorted|
        invariant groups == Groups(sorted[..index], columns)
      {
        var element := sorted[index];
        var columnIndex := if element.column_index.Some? then element.column_index.value else index % columns;
        if columnIndex !in groups {
          groups := groups[columnIndex := []];
        }
        groups := groups[columnIndex := groups[columnIndex] + [element]];
        assert sorted[..index + 1][..index] == sorted[..index];
      }
      assert sorted[..|sorted|] == sorted;
    }
  }

  /** There is a group for a column exactly when some element falls in it. */
  lemma {:induction false} GroupsKeys(sorted: seq<Element>, columns: int, k: int)
    requires columns > 1
    ensures k in Groups(sorted, columns) <==>
      exists i :: 0 <= i < |sorted| && ColumnOf(sorted[i], i, columns) == k
    decreases |sorted|
  {
    if sorted != [] {
      var n := |sorted| - 1;
      GroupsKeys(sorted[..n], columns, k);
      if exists i :: 0 <= i < n && ColumnOf(sorted[..n][i], i, columns) == k {
        var i :| 0 <= i < n && ColumnOf(sorted[..n][i], i, columns) == k;
        assert sorted[..n][i] == sorted[i];
      }
      if exists i :: 0 <= i < |sorted| && ColumnOf(sorted[i], i, columns) == k {
        var i :| 0 <= i < |sorted| && ColumnOf(sorted[i], i, columns) == k;
        if i < n {
          assert sorted[..n][i] == sorted[i];
        }
      }
    }
  }

  /** Every element is in the group of its column. */
  lemma {:induction false} GroupsHoldEach(sorted: seq<Element>, columns: int, i: nat)
    requires columns > 1 && i < |sorted|
    ensures ColumnOf(sorted[i], i, columns) in Groups(sorted, columns)
    ensures sorted[i] in Groups(sorted, columns)[ColumnOf(sorted[i], i, columns)]
    decreases |sorted|
  {
    var n := |sorted| - 1;
    if i < n {
      assert sorted[..n][i] == sorted[i];
      GroupsHoldEach(sorted[..n], columns, i);
    }
  }

  /** Every member of a group is an element that falls in that column. */
  lemma {:induction false} GroupsFromInput(sorted: seq<Element>, columns: int, k: int, j: nat)
    requires columns > 1
    requires k in Groups(sorted, columns) && j < |Groups(sorted, columns)[k]|
    ensures exists i :: (0 <= i < |sorted| && Groups(sorted, columns)[k][j] == sorted[i]
      && ColumnOf(sorted[i], i, columns) == k)
    decreases |sorted|
  {
    var n := |sorted| - 1;
    var g := Groups(sorted[..n], columns);
    var c := ColumnOf(sorted[n], n, columns);
    if k == c && j == |Groups(sorted, columns)[k]| - 1 {
      assert Groups(sorted, columns)[k][j] == sorted[n];
    } else {
      assert k in g && j < |g[k]| && Groups(sorted, columns)[k][j] == g[k][j];
      GroupsFromInput(sorted[..n], columns, k, j);
      var i :| 0 <= i < n && g[k][j] == sorted[..n][i] && ColumnOf(sorted[..n][i], i, columns) == k;
      assert sorted[..n][i] == sorted[i];
    }
  }

  /** A group keeps the order of the sorted list: it is sorted too. */
  lemma {:induction false} GroupsSorted(sorted: seq<Element>, columns: int, k: int)
    requires columns > 1 && SortedBy(sorted, OrderKey)
    requires k in Groups(sorted, columns)
    ensures SortedBy(Groups(sorted, columns)[k], OrderKey)
    decreases |sorted|
  {
    var n := |sorted| - 1;
    var g := Groups(sorted[..n], columns);
    var c := ColumnOf(sorted[n], n, columns);
    var prev := if k in g then g[k] else [];
    assert SortedBy(sorted[..n], OrderKey);
    if k in g {
      GroupsSorted(sorted[..n], columns, k);
    }
    if k == c {
      forall a | 0 <= a < |prev| ensures OrderKey(prev[a]) <= OrderKey(sorted[n]) {
        GroupsFromInput(sorted[..n], columns, k, a);
        var i :| 0 <= i < n && prev[a] == sorted[..n][i] && ColumnOf(sorted[..n][i], i, columns) == k;
        assert prev[a] == sorted[i];
        assert OrderKey(sorted[i]) <= OrderKey(sorted[n]);
      }
      SortedSnoc(prev, sorted[n], OrderKey);
    }
  }

  /** The sorted positions whose element falls in column `k`, in
      increasing order. */
  function ColumnPositions(sorted: seq<Element>, columns: int, k: int): seq<nat>
    requires columns > 1
    decreases |sorted|
  {
    if sorted == [] then []
    else
      var n := |sorted| - 1;
      var rest := ColumnPositions(sorted[..n], columns, k);
      if ColumnOf(sorted[n], n, columns) == k then rest + [n] else rest
  }

  /** `ColumnPositions` lists every position of the column once, in
      increasing order, and nothing else. */
  lemma {:induction false} ColumnPositionsExact(sorted: seq<Element>, columns: int, k: int)
    requires columns > 1
    ensures var r := ColumnPositions(sorted, columns, k);
      && (forall j :: 0 <= j < |r| ==> r[j] < |sorted| && ColumnOf(sorted[r[j]], r[j], columns) == k)
      && (forall j, l :: 0 <= j < l < |r| ==> r[j] < r[l])
      && (forall i :: 0 <= i < |sorted| && ColumnOf(sorted[i], i, columns) == k ==> i in r)
    decreases |sorted|
  {
    if sorted != [] {
      var n := |sorted| - 1;
      var b := sorted[..n];
      ColumnPositionsExact(b, columns, k);
      var rb := ColumnPositions(b, columns, k);
      assert forall j :: 0 <= j < |rb| ==> rb[j] < n && sorted[rb[j]] == b[rb[j]];
      forall i | 0 <= i < |sorted| && ColumnOf(sorted[i], i, columns) == k
        ensures i in ColumnPositions(sorted, columns, k)
      {
        if i < n {
          assert b[i] == sorted[i];
        }
      }
    }
  }

  /** The group of column `k` (empty when there is none) is exactly the
      elements that fall in that column, in their sorted order and each
      once: its j-th member is the element at the j-th such position. */
  lemma {:induction false} GroupsInOrder(sorted: seq<Element>, columns: int, k: int)
    requires columns > 1
    ensures var g := Groups(sorted, columns);
      var group := if k in g then g[k] else [];
      var idx := ColumnPositions(sorted, columns, k);
      |group| == |idx| && forall j :: 0 <= j < |idx| ==> idx[j] < |sorted| && group[j] == sorted[idx[j]]
    decreases |sorted|
  {
    if sorted != [] {
      var n := |sorted| - 1;
      var b := sorted[..n];
      GroupsInOrder(b, columns, k);
      var gb := Groups(b, columns);
      var prev := if k in gb then gb[k] else [];
      var ib := ColumnPositions(b, columns, k);
      assert forall j :: 0 <= j < |ib| ==> sorted[ib[j]] == b[ib[j]];
      var g := Groups(sorted, columns);
      if ColumnOf(sorted[n], n, columns) == k {
        assert g[k] == prev + [sorted[n]];
      } else {
        assert (k in g) == (k in gb);
        assert k in g ==> g[k] == gb[k];
      }
    }
  }

  /** What the renderer draws. */
  datatype Layout =
    | TwoColumns(left: seq<Element>, right: seq<Element>)
    | SingleColumn(items: seq<Element>)

  datatype Rendered =
    | Nothing
    | Drawn(showTitle: bool, layout: Layout)

  /** The heading appears when the title is present, not blank and not the
      default 'New Section'. */
  predicate TitleShown(title: Option<string>) {
    title.Some? && title.value != "" && Trim(title.value) != "" && title.value != "New Section"
  }

  lemma TitleShownIff(title: Option<string>)
    ensures TitleShown(title) <==> title.Some? && !IsBlank(title.value) && title.value != "New Section"
  {
    if title.Some? {
      TrimEmptyIffBlank(title.value);
    }
  }

  /** The component: nothing for a section without elements; two columns
      showing groups 0 and 1 for a two-column section; the sorted list in
      one column for any other column count. */
  method Render(s: Section) returns (r: Rendered)
    ensures r.Nothing? <==> s.elements == []
    ensures r.Drawn? ==> r.showTitle == TitleShown(s.title)
    ensures r.Drawn? && ColumnCount(s) == 2 ==>
      var g := Groups(SortedElements(s).value, 2);
      r.layout == TwoColumns(if 0 in g then g[0] else [], if 1 in g then g[1] else [])
    ensures r.Drawn? && ColumnCount(s) != 2 ==> r.layout == SingleColumn(SortedElements(s).value)
  {
    var sorted := SortedElements(s);
    if sorted.None? {
      return Nothing;
    }
    var columns := ColumnCount(s);
    var groups := GroupByColumn(sorted.value, columns);
    var showTitle := TitleShown(s.title);
    if columns == 2 {
      var left := if 0 in groups then groups[0] else [];
      var right := if 1 in groups then groups[1] else [];
      r := Drawn(showTitle, TwoColumns(left, right));
    } else {
      r := Drawn(showTitle, SingleColumn(sorted.value));
    }
  }

  /** In the two-column layout each column lists, in sorted order, exactly
      the elements that fall in it; an element whose `column_index` is
      neither 0 nor 1 is not shown. */
  lemma TwoColumnContents(s: Section)
    requires s.elements != [] && ColumnCount(s) == 2
    ensures var sorted := SortedElements(s).value;
      var g := Groups(sorted, 2);
      && (0 in g ==> SortedBy(g[0], OrderKey))
      && (1 in g ==> SortedBy(g[1], OrderKey))
      && forall i :: 0 <= i < |sorted| && sorted[i].column_index.None? ==>
           ColumnOf(sorted[i], i, 2) == i % 2 && i % 2 in g && sorted[i] in g[i % 2]
  {
    var sorted := SortedElements(s).value;
    if 0 in Groups(sorted, 2) {
      GroupsSorted(sorted, 2, 0);
    }
    if 1 in Groups(sorted, 2) {
      GroupsSorted(sorted, 2, 1);
    }
    forall i | 0 <= i < |sorted| && sorted[i].column_index.None?
      ensures ColumnOf(sorted[i], i, 2) == i % 2 && i % 2 in Groups(sorted, 2)
        && sorted[i] in Groups(sorted, 2)[i % 2]
    {
      GroupsHoldEach(sorted, 2, i);
    }
  }
}
