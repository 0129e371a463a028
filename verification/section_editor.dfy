/**
  The admin section editor (src/components/admin/SectionEditor.tsx): the list
  of a project's sections with their elements, kept in the component state
  `sections` and replaced by every handler. Server calls are not made here:
  a handler that awaits one takes its outcome as a parameter (`None` or
  `false` for a call that threw) and returns what it would send.

  Every section in the list carries an `elements` array (the project GET
  always attaches one and a created section starts with `[]`), so the
  `section.elements || []` fallbacks of the component are the identity.
*/
module SectionEditor {
  import opened Wrappers
  import opened Js
  import opened Ordering
  import opened Types
  import Store
  import Api

  /** The content a new text element starts with. */
  const TextPlaceholder := "<p>Enter your content here...</p>"

  /** The position of the first section with id `sectionId`, or -1. */
  function FindSection(ss: seq<Section>, sectionId: int): (k: int)
    ensures -1 <= k < |ss|
    ensures 0 <= k ==> ss[k].id == sectionId && forall j :: 0 <= j < k ==> ss[j].id != sectionId
    ensures k == -1 ==> forall j :: 0 <= j < |ss| ==> ss[j].id != sectionId
  {
    FindIndex(ss, (s: Section) => s.id == sectionId)
  }

  /** The position of the first element with id `id`, or -1 (drag ids are
      compared as `String(el.id)`, which is one-to-one on integer ids). */
  function FindElement(es: seq<Element>, id: int): (k: int)
    ensures -1 <= k < |es|
    ensures 0 <= k ==> es[k].id == id && forall j :: 0 <= j < k ==> es[j].id != id
    ensures k == -1 ==> forall j :: 0 <= j < |es| ==> es[j].id != id
  {
    FindIndex(es, (e: Element) => e.id == id)
  }

  /** Every section with id `sectionId` gets the element list `es`; the
      other sections stay as they are. */
  function SetElements(ss: seq<Section>, sectionId: int, es: seq<Element>): (r: seq<Section>)
    ensures |r| == |ss|
    ensures forall i :: 0 <= i < |ss| && ss[i].id == sectionId ==> r[i] == ss[i].(elements := es)
    ensures forall i :: 0 <= i < |ss| && ss[i].id != sectionId ==> r[i] == ss[i]
  {
    seq(|ss|, i requires 0 <= i < |ss| => if ss[i].id == sectionId then ss[i].(elements := es) else ss[i])
  }

  // ---------------------------------------------------------------------
  // Drag and drop

  /** The element list a drag of `active` onto `over` within a section
      produces, or `None` when the drag is ignored: no drop target, a drop
      on itself, an unknown section, or an id the section does not hold.
      Otherwise the dragged element lands at the target's position and the
      others keep their relative order. */
  function Dragged(ss: seq<Section>, sectionId: int, active: int, over: Option<int>): (r: Option<seq<Element>>)
    ensures r.Some? <==>
      && over.Some? && over.value != active
      && FindSection(ss, sectionId) >= 0
      && FindElement(ss[FindSection(ss, sectionId)].elements, active) >= 0
      && FindElement(ss[FindSection(ss, sectionId)].elements, over.value) >= 0
    ensures r.Some? ==>
      var es := ss[FindSection(ss, sectionId)].elements;
      var from := FindElement(es, active);
      var to := FindElement(es, over.value);
      && |r.value| == |es|
      && multiset(r.value) == multiset(es)
      && r.value[to] == es[from] && r.value[to].id == active
      && r.value[..to] + r.value[to + 1..] == es[..from] + es[from + 1..]
  {
    if over.None? || over.value == active then None
    else
      var k := FindSection(ss, sectionId);
      if k == -1 then None
      else
        var es := ss[k].elements;
        var from := FindElement(es, active);
        var to := FindElement(es, over.value);
        if from == -1 || to == -1 then None
        else Some(ArrayMove(es, from, to))
  }

  /** One entry of the reorder request. */
  datatype OrderEntry = OrderEntry(id: int, order_index: int, column_index: int)

  /** The reorder request for a section's new element list: each element's
      position as its order, and its column or 0. */
  function ElementOrders(es: seq<Element>): (r: seq<OrderEntry>)
    ensures |r| == |es|
    ensures forall i :: 0 <= i < |r| ==> r[i].id == es[i].id && r[i].order_index == i
    ensures forall i :: 0 <= i < |r| ==>
      r[i].column_index == (if es[i].column_index.Some? then es[i].column_index.value else 0)
  {
    seq(|es|, i requires 0 <= i < |es| => OrderEntry(es[i].id, i, es[i].column_index.GetOr(0)))
  }

  /** An entry as the JSON object the server receives. */
  function EntryJson(o: OrderEntry): (v: JsValue)
    ensures Prop(v, "id") == Some(Num(o.id))
    ensures Prop(v, "order_index") == Some(Num(o.order_index))
    ensures Prop(v, "column_index") == Some(Num(o.column_index))
  {
    Obj(map["id" := Num(o.id), "order_index" := Num(o.order_index), "column_index" := Num(o.column_index)])
  }

  function RequestJson(orders: seq<OrderEntry>): (r: seq<JsValue>)
    ensures |r| == |orders|
    ensures forall i :: 0 <= i < |r| ==> r[i] == EntryJson(orders[i])
  {
    seq(|orders|, i requires 0 <= i < |orders| => EntryJson(orders[i]))
  }

  /** The order entries the drag sends give contiguous positions: once the
      server has applied them without a failing update, the row of every
      element of a section whose ids are distinct holds the element's
      position in the new list, and its column or 0. */
  lemma ReorderStoresPositions(rows: map<int, Store.ElementRow>, es: seq<Element>, i: nat)
    requires i < |es| && es[i].id in rows
    requires forall a, b :: 0 <= a < b < |es| ==> es[a].id != es[b].id
    ensures forall k :: 0 <= k < |RequestJson(ElementOrders(es))| ==> !Api.IsNullish(RequestJson(ElementOrders(es))[k])
    ensures var after := Api.ElementsAfter(rows, RequestJson(ElementOrders(es)), {});
      && es[i].id in after
      && after[es[i].id].order_index == i
      && after[es[i].id].column_index == Some(if es[i].column_index.Some? then es[i].column_index.value else 0)
  {
    var entries := RequestJson(ElementOrders(es));
    forall k | 0 <= k < |entries|
      ensures !Api.IsNullish(entries[k])
    {
      assert entries[k] == EntryJson(ElementOrders(es)[k]);
    }
    forall k | i < k < |entries|
      ensures !Api.Targets(entries[k], es[i].id)
    {
      assert Prop(entries[k], "id") == Some(Num(es[k].id));
    }
    Api.ElementsAfterLastWins(rows, entries, {}, i, es[i].id, i);
  }

  // ---------------------------------------------------------------------
  // Adding, updating and deleting elements

  /** What the editor asks the server to create. `column_index` is absent
      for the plain add button. */
  datatype ElementRequest = ElementRequest(kind: string, content: string, order_index: int, column_index: Option<int>)

  /** The request for a new element: the text placeholder for a text
      element, and the section's current element count over all its
      columns as the order. */
  function AddRequest(ss: seq<Section>, sectionId: int, elementType: string, column: Option<int>): (r: ElementRequest)
    ensures r.kind == elementType && r.column_index == column
    ensures r.content == (if elementType == "text" then TextPlaceholder else "")
    ensures FindSection(ss, sectionId) == -1 ==> r.order_index == 0
    ensures FindSection(ss, sectionId) >= 0 ==> r.order_index == |ss[FindSection(ss, sectionId)].elements|
  {
    var k := FindSection(ss, sectionId);
    ElementRequest(
      elementType,
      if elementType == "text" then TextPlaceholder else "",
      if k == -1 then 0 else |ss[k].elements|,
      column)
  }

  /** The section list once the server has answered with `created`: every
      section with that id holds its old elements plus the new one, sorted
      by order with equal orders kept in list order (the new one after the
      old ones); the other sections are untouched. */
  function WithAdded(ss: seq<Section>, sectionId: int, created: Element): (r: seq<Section>)
    ensures |r| == |ss|
    ensures forall i :: 0 <= i < |ss| && ss[i].id != sectionId ==> r[i] == ss[i]
    ensures forall i :: 0 <= i < |ss| && ss[i].id == sectionId ==>
      && r[i] == ss[i].(elements := r[i].elements)
      && SortedBy(r[i].elements, OrderKey)
      && multiset(r[i].elements) == multiset(ss[i].elements) + multiset{created}
    ensures forall i, k :: 0 <= i < |ss| && ss[i].id == sectionId ==>
      WithKey(r[i].elements, OrderKey, k) == WithKey(ss[i].elements + [created], OrderKey, k)
  {
    var r := seq(|ss|, i requires 0 <= i < |ss| =>
      if ss[i].id == sectionId then ss[i].(elements := SortBy(ss[i].elements + [created], OrderKey)) else ss[i]);
    forall i, k | 0 <= i < |ss| && ss[i].id == sectionId
      ensures WithKey(r[i].elements, OrderKey, k) == WithKey(ss[i].elements + [created], OrderKey, k)
    {
      SortByStable(ss[i].elements + [created], OrderKey, k);
    }
    r
  }

  /** When the section's list is in order and the server kept the requested
      order (the element count), a new element sorts to the end provided
      every existing order is below the count. */
  lemma {:induction false} AddedGoesLast(es: seq<Element>, created: Element)
    requires SortedBy(es, OrderKey)
    requires forall j :: 0 <= j < |es| ==> OrderKey(es[j]) < |es|
    requires created.order_index == Some(|es|)
    ensures SortBy(es + [created], OrderKey) == es + [created]
  {
    var t := es + [created];
    forall a, b | 0 <= a < b < |t|
      ensures OrderKey(t[a]) <= OrderKey(t[b])
    {
      if b == |es| {
        assert t[a] == es[a];
      } else {
        assert t[a] == es[a] && t[b] == es[b];
      }
    }
    SortBySorted(t, OrderKey);
  }

  /** `handleUpdateElement`: every element with the updated element's id is
      replaced by it, in every section; everything else stays. */
  function WithUpdated(ss: seq<Section>, updated: Element): (r: seq<Section>)
    ensures |r| == |ss|
    ensures forall i :: 0 <= i < |ss| ==>
      && r[i] == ss[i].(elements := r[i].elements)
      && |r[i].elements| == |ss[i].elements|
      && forall j :: 0 <= j < |ss[i].elements| ==>
        r[i].elements[j] == (if ss[i].elements[j].id == updated.id then updated else ss[i].elements[j])
  {
    seq(|ss|, i requires 0 <= i < |ss| =>
      ss[i].(elements := seq(|ss[i].elements|, j requires 0 <= j < |ss[i].elements| =>
        if ss[i].elements[j].id == updated.id then updated else ss[i].elements[j])))
  }

  /** Applying the same update again changes nothing. */
  lemma UpdateIdempotent(ss: seq<Section>, updated: Element)
    ensures WithUpdated(WithUpdated(ss, updated), updated) == WithUpdated(ss, updated)
  {
    var once := WithUpdated(ss, updated);
    var twice := WithUpdated(once, updated);
    forall i | 0 <= i < |ss|
      ensures twice[i] == once[i]
    {
      assert twice[i].elements == once[i].elements;
    }
  }

  /** The callback `el => el.id !== elementId`. */
  function ElementIdIsNot(elementId: int): Element -> bool {
    (e: Element) => e.id != elementId
  }

  /** `handleDeleteElement`: the element with that id leaves every section;
      all other elements stay, in their order. */
  function WithoutElement(ss: seq<Section>, elementId: int): (r: seq<Section>)
    ensures |r| == |ss|
    ensures forall i :: 0 <= i < |ss| ==>
      && r[i] == ss[i].(elements := r[i].elements)
      && (forall e :: e in r[i].elements <==> e in ss[i].elements && e.id != elementId)
      && Selects(r[i].elements, ss[i].elements, ElementIdIsNot(elementId))
  {
    assert forall i :: 0 <= i < |ss| ==>
      Selects(Filter(ss[i].elements, ElementIdIsNot(elementId)), ss[i].elements, ElementIdIsNot(elementId)) by {
      forall i | 0 <= i < |ss| {
        FilterSelects(ss[i].elements, ElementIdIsNot(elementId));
      }
    }
    seq(|ss|, i requires 0 <= i < |ss| => ss[i].(elements := Filter(ss[i].elements, ElementIdIsNot(elementId))))
  }

  /** Deleting an id no section holds changes nothing. */
  lemma DeleteAbsentElement(ss: seq<Section>, elementId: int)
    requires forall i, j :: 0 <= i < |ss| && 0 <= j < |ss[i].elements| ==> ss[i].elements[j].id != elementId
    ensures WithoutElement(ss, elementId) == ss
  {
    var r := WithoutElement(ss, elementId);
    forall i | 0 <= i < |ss|
      ensures r[i] == ss[i]
    {
      FilterAll(ss[i].elements, ElementIdIsNot(elementId));
    }
  }

  /** The callback `s => s.id !== sectionId`. */
  function SectionIdIsNot(sectionId: int): Section -> bool {
    (s: Section) => s.id != sectionId
  }

  /** `handleDeleteSection`: exactly the sections with that id go; the
      others stay, in their order. */
  function WithoutSection(ss: seq<Section>, sectionId: int): (r: seq<Section>)
    ensures forall s :: s in r <==> s in ss && s.id != sectionId
    ensures Selects(r, ss, SectionIdIsNot(sectionId))
  {
    FilterSelects(ss, SectionIdIsNot(sectionId));
    Filter(ss, SectionIdIsNot(sectionId))
  }

  /** The editor's state. */
  class Editor {
    var sections: seq<Section>

    /** `fetchSections`: the project's sections, or none when it has no
        `sections` or the fetch failed. */
    constructor (loaded: Option<seq<Section>>)
      ensures sections == loaded.GetOr([])
    {
      sections := loaded.GetOr([]);
    }

    /** `handleDragEnd`: the section's list becomes the moved list and the
        new positions are sent; an ignored drag changes nothing and sends
        nothing. */
    method HandleDragEnd(sectionId: int, active: int, over: Option<int>) returns (elementOrders: Option<seq<OrderEntry>>)
      modifies this
      ensures var moved := Dragged(old(sections), sectionId, active, over);
        && (moved.None? ==> sections == old(sections) && elementOrders.None?)
        && (moved.Some? ==> sections == SetElements(old(sections), sectionId, moved.value)
                            && elementOrders == Some(ElementOrders(moved.value)))
    {
      var moved := Dragged(sections, sectionId, active, over);
      if moved.None? {
        return None;
      }
      sections := SetElements(sections, sectionId, moved.value);
      elementOrders := Some(ElementOrders(moved.value));
    }

    /** `handleAddElement` (`column` absent) and `handleAddElementToColumn`:
        the request is built from the current list; `created` is the
        server's answer, `None` when the call failed. */
    method HandleAddElement(sectionId: int, elementType: string, column: Option<int>, created: Option<Element>)
      returns (request: ElementRequest)
      modifies this
      ensures request == AddRequest(old(sections), sectionId, elementType, column)
      ensures created.None? ==> sections == old(sections)
      ensures created.Some? ==> sections == WithAdded(old(sections), sectionId, created.value)
    {
      request := AddRequest(sections, sectionId, elementType, column);
      if created.Some? {
        sections := WithAdded(sections, sectionId, created.value);
      }
    }

    method HandleUpdateElement(updated: Element)
      modifies this
      ensures sections == WithUpdated(old(sections), updated)
    {
      sections := WithUpdated(sections, updated);
    }

    /** `deleted` is whether the server call succeeded. */
    method HandleDeleteElement(elementId: int, deleted: bool)
      modifies this
      ensures deleted ==> sections == WithoutElement(old(sections), elementId)
      ensures !deleted ==> sections == old(sections)
    {
      if deleted {
        sections := WithoutElement(sections, elementId);
      }
    }

    /** Nothing is sent unless the user confirms; the list changes only
        when the server call succeeded. Returns whether the call is made. */
    method HandleDeleteSection(sectionId: int, confirmed: bool, deleted: bool) returns (requested: bool)
      modifies this
      ensures requested == confirmed
      ensures confirmed && deleted ==> sections == WithoutSection(old(sections), sectionId)
      ensures !(confirmed && deleted) ==> sections == old(sections)
    {
      if !confirmed {
        return false;
      }
      requested := true;
      if deleted {
        sections := WithoutSection(sections, sectionId);
      }
    }
  }
}
