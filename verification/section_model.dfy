/**
  The section model of the API (api/models/Section.js): section creation
  with column-count validation and the next `order_index` of the project,
  element creation with type validation, the next `order_index` of the
  (section, column) pair and embed normalisation, and the renaming of
  legacy field names in update payloads.
*/
module SectionModel {
  import opened Wrappers
  import opened Js
  import opened Embed
  import opened Store

  // ---------------------------------------------------------------------
  // Validation

  const ValidColumns: seq<int> := [1, 2, 3, 4]

  const ElementTypes: seq<string> := ["text", "image", "video", "quote", "embed"]

  /** `ElementTypes.join(', ')` */
  const ElementTypesText := "text, image, video, quote, embed"

  /** The column count of `create`: `columns` defaults to 1 when undefined
      and goes through `parseInt`; only 1, 2, 3 and 4 are accepted. */
  function ColumnCount(columns: JsValue): (r: Result<int, string>)
    ensures r.Ok? ==> r.value in ValidColumns
    ensures var p := ParseInt(if columns.Undefined? then Num(1) else columns);
      && (r.Ok? <==> p.Num? && p.n in ValidColumns)
      && (r.Ok? ==> r.value == p.n)
      && (r.Err? ==> r.error == "Invalid column count: " + ToJsString(p) + ". Must be 1, 2, 3, or 4.")
  {
    CheckedCount(ParseInt(if columns.Undefined? then Num(1) else columns))
  }

  /** The check of the parsed count against the valid column counts. */
  function CheckedCount(count: JsValue): (r: Result<int, string>)
    ensures r.Ok? <==> count.Num? && count.n in ValidColumns
    ensures r.Ok? ==> r.value == count.n
    ensures r.Err? ==> r.error == "Invalid column count: " + ToJsString(count) + ". Must be 1, 2, 3, or 4."
  {
    if count.Num? && count.n in ValidColumns then Ok(count.n)
    else Err("Invalid column count: " + ToJsString(count) + ". Must be 1, 2, 3, or 4.")
  }

  /** A numeric column count is accepted exactly when it is 1 to 4. */
  lemma ColumnCountOfNumber(n: int)
    ensures ColumnCount(Num(n)).Ok? <==> 1 <= n <= 4
    ensures ColumnCount(Num(n)).Ok? ==> ColumnCount(Num(n)).value == n
    ensures ColumnCount(Num(n)).Err? ==>
      ColumnCount(Num(n)).error == "Invalid column count: " + IntToString(n) + ". Must be 1, 2, 3, or 4."
  {
    ParseIntOfNumber(n);
    assert ColumnCount(Num(n)) == CheckedCount(Num(n));
    CheckedNumber(n);
  }

  lemma CheckedNumber(n: int)
    ensures CheckedCount(Num(n)).Ok? <==> 1 <= n <= 4
    ensures CheckedCount(Num(n)).Ok? ==> CheckedCount(Num(n)).value == n
    ensures CheckedCount(Num(n)).Err? ==>
      CheckedCount(Num(n)).error == "Invalid column count: " + IntToString(n) + ". Must be 1, 2, 3, or 4."
  {
  }

  /** A count sent as a string of decimal digits, as a form sends it, is
      accepted exactly when its value is 1 to 4, and is then that value. */
  lemma ColumnCountOfDigits(d: string)
    requires d != [] && forall i :: 0 <= i < |d| ==> IsDigit(d[i])
    requires !(|d| >= 2 && d[0] == '0' && (d[1] == 'x' || d[1] == 'X'))
    ensures ColumnCount(Str(d)).Ok? <==> 1 <= DecimalValue(d) <= 4
    ensures ColumnCount(Str(d)).Ok? ==> ColumnCount(Str(d)).value == DecimalValue(d)
  {
    ParseDigits(d, false);
    assert ParseInt(Str(d)) == Num(DecimalValue(d));
    CheckedNumber(DecimalValue(d));
  }

  /** A missing column count means one column. */
  lemma ColumnCountDefault()
    ensures ColumnCount(Undefined) == Ok(1)
  {
    ParseIntOfNumber(1);
  }

  lemma ValidColumnsRange(n: int)
    requires n in ValidColumns
    ensures 1 <= n <= 4
  {
  }

  /** The element type of `addElement`, compared strictly against the list
      of valid types. */
  function ElementType(t: JsValue): (r: Result<string, string>)
    ensures r.Ok? <==> t.Str? && t.s in ElementTypes
    ensures r.Ok? ==> t == Str(r.value)
    ensures r.Err? ==> r.error == "Invalid element type: " + ToJsString(t) + ". Must be one of: " + ElementTypesText
  {
    if t.Str? && t.s in ElementTypes then Ok(t.s)
    else Err("Invalid element type: " + ToJsString(t) + ". Must be one of: " + ElementTypesText)
  }

  /** `editor_config.editorType` of a created element. */
  function EditorType(kind: string): (r: string)
    ensures r == "file-upload" <==> kind == "image" || kind == "video"
    ensures r == "embed-url" <==> kind == "embed"
    ensures r == "rich-text" <==> !(kind in {"image", "video", "embed"})
  {
    if kind == "text" || kind == "quote" then "rich-text"
    else if kind == "image" || kind == "video" then "file-upload"
    else if kind == "embed" then "embed-url"
    else "rich-text"
  }

  // ---------------------------------------------------------------------
  // create

  /** One entry of `column_structure`. */
  datatype ColumnSlot = ColumnSlot(column: int, elements: seq<ElementRow>)

  /** What `create` returns. */
  datatype CreatedSection = CreatedSection(
    id: int,
    project_id: int,
    section_order: int,
    section_type: Option<string>,
    columns: int,
    column_structure: seq<ColumnSlot>)

  /** The `for (let i = 1; i <= columnCount; i++)` loop of `create`. */
  method ColumnStructure(count: int) returns (slots: seq<ColumnSlot>)
    ensures |slots| == if count < 0 then 0 else count
    ensures forall i :: 0 <= i < |slots| ==> slots[i] == ColumnSlot(i + 1, [])
  {
    slots := [];
    var i := 1;
    while i <= count
      invariant 1 <= i
      invariant count >= 0 ==> i <= count + 1
      invariant count < 1 ==> i == 1
      invariant |slots| == i - 1
      invariant forall j :: 0 <= j < |slots| ==> slots[j] == ColumnSlot(j + 1, [])
    {
      slots := slots + [ColumnSlot(i, [])];
      i := i + 1;
    }
  }

  /** `Section.create({project_id, section_type, columns})`. `section_type`
      defaults to 'content' and becomes the title. The new section is
      ordered after every section of the project, or first (1) when the
      project has none. */
  method Create(db: Database, project_id: int, section_type: JsValue, columns: JsValue)
    returns (r: Result<CreatedSection, string>)
    requires db.Valid()
    modifies db
    ensures db.Valid()
    ensures r.Err? <==> ColumnCount(columns).Err?
    ensures r.Err? ==> r.error == ColumnCount(columns).error && unchanged(db)
    ensures r.Ok? ==>
      var c := r.value;
      var scope := old(SectionOrders(db.sections, project_id));
      && c.columns == ColumnCount(columns).value
      && c.id !in old(db.sections)
      && db.sections == old(db.sections)[c.id := SectionRow(project_id, c.section_order, c.section_type, c.columns)]
      && c.section_type == TextColumn(if section_type.Undefined? then Str("content") else section_type)
      && NextAfter(scope, c.section_order)
      && |c.column_structure| == c.columns
      && (forall i :: 0 <= i < c.columns ==> c.column_structure[i] == ColumnSlot(i + 1, []))
    ensures r.Ok? ==> db.projects == old(db.projects) && db.elements == old(db.elements)
  {
    var count := ColumnCount(columns);
    if count.Err? {
      return Err(count.error);
    }
    var n := count.value;
    ValidColumnsRange(n);
    var order := NextOrderOf(SectionOrders(db.sections, project_id));
    var title := TextColumn(if section_type.Undefined? then Str("content") else section_type);
    var id := db.InsertSection(SectionRow(project_id, order, title, n));
    var slots := ColumnStructure(n);
    r := Ok(CreatedSection(id, project_id, order, title, n, slots));
  }

  // ---------------------------------------------------------------------
  // addElement

  /** The request of `addElement`, field by field as JSON values. */
  datatype ElementInput = ElementInput(
    element_type: JsValue,
    column_position: JsValue,
    content: JsValue,
    media_url: JsValue,
    media_key: JsValue,
    embed_url: JsValue,
    metadata: JsValue)

  /** `embed_data` of a created embed element. */
  datatype EmbedData = EmbedData(platform: Platform, originalUrl: string, embedUrl: string)

  /** The element object `addElement` returns. */
  datatype ElementView = ElementView(
    id: int,
    row: ElementRow,
    media_key: JsValue,
    embed_data: Option<EmbedData>,
    unique_key: string,
    editor_type: string)

  /** `metadata?.[key] || ''`: the field when it is present and truthy,
      otherwise the empty string. */
  function MetaText(metadata: JsValue, key: string): (r: JsValue)
    ensures Truthy(r) || r == Str("")
    ensures Prop(metadata, key).Some? && Truthy(Prop(metadata, key).value) ==> r == Prop(metadata, key).value
    ensures Prop(metadata, key).None? || !Truthy(Prop(metadata, key).value) ==> r == Str("")
  {
    match Prop(metadata, key)
    case None => Str("")
    case Some(v) => Or(v, Str(""))
  }

  /** `String(column_index)` as a template literal prints it. */
  function ColumnText(column: Option<int>): string {
    if column.Some? then IntToString(column.value) else "null"
  }

  /** `addElement` validates and normalises the URL of an embed element
      whose `embed_url` is truthy. */
  predicate Embedding(input: ElementInput) {
    input.element_type == Str("embed") && Truthy(input.embed_url)
  }

  /** An embedding request that `addElement` accepts: its URL is a string
      that one of the platform patterns matches. */
  predicate EmbedAccepted(input: ElementInput) {
    !Embedding(input) || (input.embed_url.Str? && FirstMatch(input.embed_url.s).Some?)
  }

  /** The `embed_url` column and `embed_data` stored for an accepted request:
      for an embedding request the first matching platform's normalised URL
      and what the validator found, otherwise the URL as given (empty when
      missing) and no embed data. */
  predicate EmbedStored(input: ElementInput, stored: Option<string>, data: Option<EmbedData>) {
    if Embedding(input) then
      && input.embed_url.Str?
      && FirstMatch(input.embed_url.s).Some?
      && var url := input.embed_url.s;
      && var p := FirstMatch(url).value;
      && stored == MatchPlatform(p, url)
      && data == Some(EmbedData(p, url, MatchPlatform(p, url).value))
    else
      stored == TextColumn(if input.embed_url.Undefined? then Str("") else input.embed_url) && data == None
  }

  /** The text columns of the row `addElement` inserts, from the request:
      the content (empty when missing), the media URL, and the alt text and
      caption taken out of `metadata`. */
  predicate TextsFrom(row: ElementRow, input: ElementInput) {
    && row.content == TextColumn(if input.content.Undefined? then Str("") else input.content)
    && row.media_url == TextColumn(input.media_url)
    && row.alt_text == TextColumn(MetaText(input.metadata, "alt_text"))
    && row.caption == TextColumn(MetaText(input.metadata, "caption"))
  }

  /** The embed step of `addElement`: the URL of an embedding request is
      validated, and refused when it is not a string or no pattern matches. */
  method EmbedFields(input: ElementInput) returns (r: Result<(Option<string>, Option<EmbedData>), string>)
    ensures r.Ok? <==> EmbedAccepted(input)
    ensures Embedding(input) && input.embed_url.Str? && r.Err? ==> r.error == UnsupportedMessage
    ensures r.Ok? ==> EmbedStored(input, r.value.0, r.value.1)
  {
    var embedUrl := if input.embed_url.Undefined? then Str("") else input.embed_url;
    if !Embedding(input) {
      return Ok((TextColumn(embedUrl), None));
    }
    if !embedUrl.Str? {
      return Err("url.match is not a function");
    }
    var validation := ValidateAndParseEmbed(embedUrl.s);
    if validation.Invalid? {
      return Err(validation.error);
    }
    r := Ok((Some(validation.embedUrl), Some(EmbedData(validation.platform, validation.originalUrl, validation.embedUrl))));
  }

  /** `addElement(sectionId, elementData)`. The type must be one of the five
      element types. The element is ordered after every element of the same
      section and column, or first (1) when that column is empty. An embed
      element with a non-empty URL stores the normalised URL, or is refused
      with the validator's message. */
  method AddElement(db: Database, sectionId: int, input: ElementInput) returns (r: Result<ElementView, string>)
    requires db.Valid()
    modifies db
    ensures db.Valid()
    ensures ElementType(input.element_type).Err? ==> r == Err(ElementType(input.element_type).error)
    ensures ElementType(input.element_type).Ok? && Embedding(input) && input.embed_url.Str? && !EmbedAccepted(input) ==>
      r == Err(UnsupportedMessage)
    ensures r.Ok? <==> ElementType(input.element_type).Ok? && EmbedAccepted(input)
    ensures r.Err? ==> unchanged(db)
    ensures r.Ok? ==>
      var e := r.value;
      var column := ParseInt(if input.column_position.Undefined? then Num(1) else input.column_position);
      var scope := if column.Num? then old(ColumnOrders(db.elements, sectionId, column.n)) else map[];
      && e.id !in old(db.elements)
      && db.elements == old(db.elements)[e.id := e.row]
      && db.projects == old(db.projects) && db.sections == old(db.sections)
      && e.row.kind == Some(input.element_type.s)
      && e.row.section_id == sectionId
      && e.row.column_index == (if column.Num? then Some(column.n) else None)
      && NextAfter(scope, e.row.order_index)
      && TextsFrom(e.row, input)
      && EmbedStored(input, e.row.embed_url, e.embed_data)
      && e.media_key == input.media_key
      && e.editor_type == EditorType(e.row.kind.value)
      && e.unique_key == IntToString(sectionId) + "-" + e.row.kind.value + "-" + IntToString(e.row.order_index)
                         + "-" + ColumnText(e.row.column_index)
  {
    var kind := ElementType(input.element_type);
    if kind.Err? {
      return Err(kind.error);
    }
    var column := ParseInt(if input.column_position.Undefined? then Num(1) else input.column_position);
    var order := 1;
    if column.Num? {
      order := NextOrderOf(ColumnOrders(db.elements, sectionId, column.n));
    }
    var embed := EmbedFields(input);
    if embed.Err? {
      return Err(embed.error);
    }
    var columnIndex := if column.Num? then Some(column.n) else None;
    var row := ElementRow(
      sectionId, order, columnIndex, Some(kind.value),
      TextColumn(if input.content.Undefined? then Str("") else input.content),
      TextColumn(input.media_url), TextColumn(MetaText(input.metadata, "alt_text")),
      TextColumn(MetaText(input.metadata, "caption")), embed.value.0);
    var id := db.InsertElement(row);
    var key := IntToString(sectionId) + "-" + kind.value + "-" + IntToString(order) + "-" + ColumnText(columnIndex);
    r := Ok(ElementView(id, row, input.media_key, embed.value.1, key, EditorType(kind.value)));
  }

  // ---------------------------------------------------------------------
  // updateElement and update: field renaming

  /** `if (u[from]) { u[to] = u[from]; delete u[from]; }` has been applied
      to `before`, giving `after`; other keys are left to the caller. */
  predicate Renamed(before: map<string, JsValue>, after: map<string, JsValue>, from: string, to: string) {
    if Truthy(Field(before, from)) then
      from !in after && to in after && after[to] == before[from]
    else
      (from in after <==> from in before) && (from in before ==> after[from] == before[from])
      && (to in after <==> to in before) && (to in before ==> after[to] == before[to])
  }

  /** `m1` and `m2` hold the same entries for `k`. */
  predicate Agree(m1: map<string, JsValue>, m2: map<string, JsValue>, k: string) {
    (k in m1 <==> k in m2) && (k in m1 ==> m1[k] == m2[k])
  }

  /** `after` differs from `before` at most at the keys in `touched`. */
  ghost predicate KeptExcept(before: map<string, JsValue>, after: map<string, JsValue>, touched: set<string>) {
    forall k :: k !in touched ==> Agree(before, after, k)
  }

  lemma KeptTrans(a: map<string, JsValue>, b: map<string, JsValue>, c: map<string, JsValue>,
                  s1: set<string>, s2: set<string>)
    requires KeptExcept(a, b, s1) && KeptExcept(b, c, s2)
    ensures KeptExcept(a, c, s1 + s2)
  {
  }

  /** A renaming is judged by the two keys it involves only. */
  lemma RenamedTransfer(b: map<string, JsValue>, a: map<string, JsValue>,
                        b': map<string, JsValue>, a': map<string, JsValue>, from: string, to: string)
    requires Renamed(b, a, from, to)
    requires Agree(b, b', from) && Agree(b, b', to) && Agree(a, a', from) && Agree(a, a', to)
    ensures Renamed(b', a', from, to)
  {
  }

  method RenameIfTruthy(u: map<string, JsValue>, from: string, to: string) returns (v: map<string, JsValue>)
    requires from != to
    ensures Renamed(u, v, from, to)
    ensures KeptExcept(u, v, {from, to})
  {
    v := u;
    if Truthy(Field(u, from)) {
      v := v[to := u[from]];
      v := v - {from};
    }
  }

  /** `if (u.metadata) { u.alt_text = u.metadata.alt_text || ''; ...;
      delete u.metadata; }` */
  method FlattenMetadata(u: map<string, JsValue>) returns (v: map<string, JsValue>)
    ensures Truthy(Field(u, "metadata")) ==>
      && "metadata" !in v && "alt_text" in v && "caption" in v
      && v["alt_text"] == MetaText(u["metadata"], "alt_text")
      && v["caption"] == MetaText(u["metadata"], "caption")
    ensures !Truthy(Field(u, "metadata")) ==> v == u
    ensures KeptExcept(u, v, {"metadata", "alt_text", "caption"})
  {
    v := u;
    if Truthy(Field(u, "metadata")) {
      var metadata := u["metadata"];
      v := v["alt_text" := MetaText(metadata, "alt_text")];
      v := v["caption" := MetaText(metadata, "caption")];
      v := v - {"metadata"};
    }
  }

  /** The three legacy renamings of `updateElement`, in the source's order. */
  method RenameLegacyElementFields(body: map<string, JsValue>) returns (u: map<string, JsValue>)
    ensures Renamed(body, u, "element_type", "type")
    ensures Renamed(body, u, "column_position", "column_index")
    ensures Renamed(body, u, "element_order", "order_index")
    ensures KeptExcept(body, u, LegacyElementKeys)
  {
    var u1 := RenameIfTruthy(body, "element_type", "type");
    var u2 := RenameIfTruthy(u1, "column_position", "column_index");
    u := RenameIfTruthy(u2, "element_order", "order_index");
    KeptTrans(u1, u2, u, {"column_position", "column_index"}, {"element_order", "order_index"});
    KeptTrans(body, u1, u, {"element_type", "type"}, {"column_position", "column_index"} + {"element_order", "order_index"});
    assert {"element_type", "type"} + ({"column_position", "column_index"} + {"element_order", "order_index"}) == LegacyElementKeys;
    RenamedTransfer(body, u1, body, u, "element_type", "type");
    RenamedTransfer(u1, u2, body, u, "column_position", "column_index");
  }

  const LegacyElementKeys: set<string> := {"element_type", "type", "column_position", "column_index",
    "element_order", "order_index"}

  /** The payload of `updateElement` after the legacy names are translated,
      `metadata` is flattened and `updated_at` is stamped with `now`. */
  method PrepareElementUpdate(body: map<string, JsValue>, now: string) returns (u: map<string, JsValue>)
    ensures Renamed(body, u, "element_type", "type")
    ensures Renamed(body, u, "column_position", "column_index")
    ensures Renamed(body, u, "element_order", "order_index")
    ensures Truthy(Field(body, "metadata")) ==>
      && "metadata" !in u && "alt_text" in u && "caption" in u
      && u["alt_text"] == MetaText(body["metadata"], "alt_text")
      && u["caption"] == MetaText(body["metadata"], "caption")
    ensures !Truthy(Field(body, "metadata")) ==>
      Agree(body, u, "metadata") && Agree(body, u, "alt_text") && Agree(body, u, "caption")
    ensures "updated_at" in u && u["updated_at"] == Str(now)
    ensures KeptExcept(body, u, ElementUpdateKeys)
  {
    var u3 := RenameLegacyElementFields(body);
    var u4 := FlattenMetadata(u3);
    u := u4["updated_at" := Str(now)];
    ghost var late := {"metadata", "alt_text", "caption"} + {"updated_at"};
    assert KeptExcept(u4, u, {"updated_at"});
    KeptTrans(u3, u4, u, {"metadata", "alt_text", "caption"}, {"updated_at"});
    KeptTrans(body, u3, u, LegacyElementKeys, late);
    assert LegacyElementKeys + late == ElementUpdateKeys;
    RenamedTransfer(body, u3, body, u, "element_type", "type");
    RenamedTransfer(body, u3, body, u, "column_position", "column_index");
    RenamedTransfer(body, u3, body, u, "element_order", "order_index");
  }

  /** The keys `updateElement` may add, rename or drop. */
  const ElementUpdateKeys: set<string> := {"element_type", "type", "column_position", "column_index",
    "element_order", "order_index", "metadata", "alt_text", "caption", "updated_at"}

  /** The payload of `update` for a section: `section_type` becomes `title`
      and `section_order` becomes `order_index` when truthy. */
  method PrepareSectionUpdate(body: map<string, JsValue>, now: string) returns (u: map<string, JsValue>)
    ensures Renamed(body, u, "section_type", "title")
    ensures Renamed(body, u, "section_order", "order_index")
    ensures "updated_at" in u && u["updated_at"] == Str(now)
    ensures KeptExcept(body, u, SectionUpdateKeys)
  {
    var u1 := RenameIfTruthy(body, "section_type", "title");
    var u2 := RenameIfTruthy(u1, "section_order", "order_index");
    u := u2["updated_at" := Str(now)];
    assert KeptExcept(u2, u, {"updated_at"});
    KeptTrans(u1, u2, u, {"section_order", "order_index"}, {"updated_at"});
    KeptTrans(body, u1, u, {"section_type", "title"}, {"section_order", "order_index"} + {"updated_at"});
    assert {"section_type", "title"} + ({"section_order", "order_index"} + {"updated_at"}) == SectionUpdateKeys;
    RenamedTransfer(body, u1, body, u, "section_type", "title");
    RenamedTransfer(u1, u2, body, u, "section_order", "order_index");
  }

  const SectionUpdateKeys: set<string> := {"section_type", "title", "section_order", "order_index", "updated_at"}

  /** A falsy legacy value is not translated: an `element_order` of 0,
      `""`, `null` or `false` stays under its legacy name, and
      `order_index` keeps whatever the body had (or stays absent). */
  lemma FalsyOrderNotRenamed(body: map<string, JsValue>, u: map<string, JsValue>)
    requires "element_order" in body && !Truthy(body["element_order"])
    requires Renamed(body, u, "element_order", "order_index")
    ensures "element_order" in u && u["element_order"] == body["element_order"]
    ensures Agree(body, u, "order_index")
  {
  }

  /** Hence a zero `element_order` alone never reaches `order_index`. */
  lemma ZeroOrderNotRenamed(body: map<string, JsValue>, u: map<string, JsValue>)
    requires "element_order" in body && body["element_order"] == Num(0) && "order_index" !in body
    requires Renamed(body, u, "element_order", "order_index")
    ensures "order_index" !in u && "element_order" in u
  {
    FalsyOrderNotRenamed(body, u);
  }
}
