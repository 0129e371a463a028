/**
  The hosted database, replaced by an in-memory store: one map from id to
  row per table, and a counter that hands out fresh ids the way the
  tables' serial keys do. Only the columns the modelled operations read or
  write are kept.
*/
module Store {
  import opened Wrappers
  import opened Js
  import opened Types

  /** A row of `sections`; `title` is NULL when nothing was stored. */
  datatype SectionRow = SectionRow(
    project_id: int,
    order_index: int,
    title: Option<string>,
    columns: int)

  /** A row of `section_elements`. Text columns are `None` when NULL;
      `column_index` can be NULL when a client sends `null`. */
  datatype ElementRow = ElementRow(
    section_id: int,
    order_index: int,
    column_index: Option<int>,
    kind: Option<string>,
    content: Option<string>,
    media_url: Option<string>,
    alt_text: Option<string>,
    caption: Option<string>,
    embed_url: Option<string>)

  /** What a text column holds after a JSON value is written to it: NULL for
      a missing or null value, the string itself for a string, and the
      textual form of any other scalar. */
  function TextColumn(v: JsValue): (r: Option<string>)
    ensures r.None? <==> v.Undefined? || v.Null? || v.NaN?
    ensures v.Str? ==> r == Some(v.s)
  {
    match v
    case Undefined => None
    case Null => None
    case NaN => None
    case Str(s) => Some(s)
    case _ => Some(ToJsString(v))
  }

  /** The largest value of `m`, as `ORDER BY ... DESC LIMIT 1` returns it;
      `None` when the scope is empty. */
  method MaxValue<K>(m: map<K, int>) returns (top: Option<int>)
    ensures top.None? <==> m == map[]
    ensures top.Some? ==> top.value in m.Values
    ensures top.Some? ==> forall k :: k in m ==> m[k] <= top.value
  {
    top := None;
    var todo := m.Keys;
    while todo != {}
      invariant todo <= m.Keys
      invariant top.None? <==> todo == m.Keys
      invariant top.Some? ==> top.value in m.Values
      invariant top.Some? ==> forall k :: k in m && k !in todo ==> m[k] <= top.value
      decreases todo
    {
      var k :| k in todo;
      if top.None? || top.value < m[k] {
        top := Some(m[k]);
      }
      todo := todo - {k};
    }
  }

  /** `orderData && orderData.length > 0 ? orderData[0].order_index + 1 : 1` */
  function NextOrder(top: Option<int>): int {
    if top.Some? then top.value + 1 else 1
  }

  /** `order` is the next order of a scope: 1 for an empty scope, otherwise
      one more than the largest order in it, and so above every order in it. */
  predicate NextAfter(scope: map<int, int>, order: int) {
    && (scope == map[] ==> order == 1)
    && (forall id :: id in scope ==> scope[id] < order)
    && (scope != map[] ==> order - 1 in scope.Values)
  }

  /** The order query followed by the `+ 1`. */
  method NextOrderOf(scope: map<int, int>) returns (order: int)
    ensures NextAfter(scope, order)
  {
    var top := MaxValue(scope);
    order := NextOrder(top);
  }

  /** Two next orders taken one after the other in the same scope, the
      first row stored in between: the orders count up by one. */
  lemma NextOrderCountsUp(scope: map<int, int>, id: int, order: int, order2: int)
    requires id !in scope
    requires NextAfter(scope, order) && NextAfter(scope[id := order], order2)
    ensures order2 == order + 1
  {
    var scope2 := scope[id := order];
    assert forall k :: k in scope2 ==> scope2[k] <= order;
    ValuesAtMost(scope2, order);
    assert id in scope2 && scope2 != map[];
    assert order2 - 1 in scope2.Values;
  }

  /** A bound on every entry of a map bounds its values. */
  lemma ValuesAtMost<K>(m: map<K, int>, b: int)
    requires forall k :: k in m ==> m[k] <= b
    ensures forall v :: v in m.Values ==> v <= b
  {
    forall v | v in m.Values
      ensures v <= b
    {
      var k :| k in m && m[k] == v;
    }
  }

  /** The `order_index` of every section of a project, by section id: the
      scope of the section order query. */
  function SectionOrders(sections: map<int, SectionRow>, project_id: int): (m: map<int, int>)
    ensures forall id :: id in m <==> id in sections && sections[id].project_id == project_id
  {
    map id | id in sections && sections[id].project_id == project_id :: sections[id].order_index
  }

  /** Storing a section under a fresh id adds it, with its order, to its own
      project's scope and leaves every other project's scope as it was. */
  lemma SectionOrdersAfterInsert(sections: map<int, SectionRow>, id: int, row: SectionRow, project_id: int)
    requires id !in sections
    ensures SectionOrders(sections[id := row], project_id) ==
      if row.project_id == project_id then SectionOrders(sections, project_id)[id := row.order_index]
      else SectionOrders(sections, project_id)
  {
    var a, b := SectionOrders(sections[id := row], project_id), SectionOrders(sections, project_id);
    if row.project_id == project_id {
      assert a.Keys == b.Keys + {id};
    } else {
      assert a.Keys == b.Keys;
    }
  }

  /** The `order_index` of every element of one column of a section: the
      scope of the element order query. */
  function ColumnOrders(elements: map<int, ElementRow>, section_id: int, column: int): (m: map<int, int>)
    ensures forall id :: id in m <==>
      id in elements && elements[id].section_id == section_id && elements[id].column_index == Some(column)
  {
    map id | id in elements && elements[id].section_id == section_id && elements[id].column_index == Some(column)
      :: elements[id].order_index
  }

  /** Storing an element under a fresh id adds it to the scope of its own
      section and column only. */
  lemma ColumnOrdersAfterInsert(elements: map<int, ElementRow>, id: int, row: ElementRow, section_id: int, column: int)
    requires id !in elements
    ensures ColumnOrders(elements[id := row], section_id, column) ==
      if row.section_id == section_id && row.column_index == Some(column)
      then ColumnOrders(elements, section_id, column)[id := row.order_index]
      else ColumnOrders(elements, section_id, column)
  {
    var a, b := ColumnOrders(elements[id := row], section_id, column), ColumnOrders(elements, section_id, column);
    if row.section_id == section_id && row.column_index == Some(column) {
      assert a.Keys == b.Keys + {id};
    } else {
      assert a.Keys == b.Keys;
    }
  }

  class Database {
    var projects: map<int, Project>
    var sections: map<int, SectionRow>
    var elements: map<int, ElementRow>
    var nextId: int

    /** Every stored row has an id below `nextId`, so `nextId` is fresh. */
    ghost predicate Valid()
      reads this
    {
      (forall id :: id in projects ==> id < nextId)
      && (forall id :: id in sections ==> id < nextId)
      && (forall id :: id in elements ==> id < nextId)
    }

    constructor ()
      ensures Valid()
      ensures projects == map[] && sections == map[] && elements == map[]
    {
      projects := map[];
      sections := map[];
      elements := map[];
      nextId := 1;
    }

    /** `insert(...).select().single()` on `sections`: the row gets a fresh id. */
    method InsertSection(row: SectionRow) returns (id: int)
      requires Valid()
      modifies this
      ensures Valid()
      ensures id == old(nextId) && id !in old(sections)
      ensures sections == old(sections)[id := row]
      ensures projects == old(projects) && elements == old(elements)
    {
      id := nextId;
      sections := sections[id := row];
      nextId := nextId + 1;
    }

    /** `insert(...).select().single()` on `section_elements`. */
    method InsertElement(row: ElementRow) returns (id: int)
      requires Valid()
      modifies this
      ensures Valid()
      ensures id == old(nextId) && id !in old(elements)
      ensures elements == old(elements)[id := row]
      ensures projects == old(projects) && sections == old(sections)
    {
      id := nextId;
      elements := elements[id := row];
      nextId := nextId + 1;
    }
  }
}
