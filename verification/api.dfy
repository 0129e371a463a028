/**
  The REST layer (api/index.js): the slug derived from a project title, the
  ordering of nested sections and elements in the project GET responses,
  the batch reorder endpoints, the defaults of the section and element
  creation endpoints, and the media row written after an upload.
*/
module Api {
  import opened Wrappers
  import opened Js
  import opened Ordering
  import opened Types
  import opened Store

  // ---------------------------------------------------------------------
  // Slug: title.toLowerCase().replace(/[^a-z0-9]+/g, '-').replace(/(^-|-$)/g, '')

  predicate IsSlugChar(c: char) {
    'a' <= c <= 'z' || '0' <= c <= '9'
  }

  /** Only `[a-z0-9]` and `-`, and never two `-` in a row. */
  predicate DashSeparated(t: string) {
    (forall i :: 0 <= i < |t| ==> IsSlugChar(t[i]) || t[i] == '-')
    && (forall i :: 0 <= i < |t| - 1 ==> t[i] == '-' ==> t[i + 1] != '-')
  }

  /** A well-formed slug: dash-separated, with no `-` at either end. */
  predicate IsSlug(t: string) {
    DashSeparated(t) && (t != [] ==> t[0] != '-' && t[|t| - 1] != '-')
  }

  /** The length of the run of characters outside `[a-z0-9]` that `s`
      starts with. */
  function RunLength(s: string): (n: nat)
    ensures n <= |s|
    ensures forall i :: 0 <= i < n ==> !IsSlugChar(s[i])
    ensures n < |s| ==> IsSlugChar(s[n])
  {
    if s != [] && !IsSlugChar(s[0]) then 1 + RunLength(s[1..]) else 0
  }

  /** `s.replace(/[^a-z0-9]+/g, '-')`: every maximal run of characters
      outside `[a-z0-9]` becomes a single `-`. */
  function CollapseRuns(s: string): (r: string)
    ensures r == [] <==> s == []
    ensures r != [] ==> (r[0] == '-' <==> !IsSlugChar(s[0]))
    ensures DashSeparated(r)
    decreases |s|
  {
    if s == [] then []
    else if IsSlugChar(s[0]) then [s[0]] + CollapseRuns(s[1..])
    else "-" + CollapseRuns(s[RunLength(s)..])
  }

  /** `t.replace(/(^-|-$)/g, '')`: one leading and one trailing `-` go. */
  function StripDashes(t: string): string {
    var a := if t != [] && t[0] == '-' then t[1..] else t;
    if a != [] && a[|a| - 1] == '-' then a[..|a| - 1] else a
  }

  /** The slug of a new project. */
  function Slugify(title: string): (r: string)
    ensures IsSlug(r)
  {
    var t := CollapseRuns(ToLower(title));
    var r := StripDashes(t);
    assert DashSeparated(r) by {
      var a := if t != [] && t[0] == '-' then t[1..] else t;
      assert DashSeparated(a) by {
        if t != [] && t[0] == '-' {
          forall i | 0 <= i < |a| - 1 && a[i] == '-' ensures a[i + 1] != '-' {
            assert a[i] == t[i + 1] && a[i + 1] == t[i + 2];
          }
        }
      }
    }
    r
  }

  /** A word of `[a-z0-9]` characters passes the run replacement as it is. */
  lemma {:induction false} CollapseWord(w: string, t: string)
    requires forall i :: 0 <= i < |w| ==> IsSlugChar(w[i])
    ensures CollapseRuns(w + t) == w + CollapseRuns(t)
    decreases |w|
  {
    if w != [] {
      var u := w + t;
      assert u[0] == w[0] && u[1..] == w[1..] + t;
      CollapseWord(w[1..], t);
      assert w == [w[0]] + w[1..];
      ConsAssoc(w[0], w[1..], CollapseRuns(t));
    } else {
      assert w + t == t;
    }
  }

  /** A run of characters outside `[a-z0-9]` that ends where a word starts
      (or where the text ends) is exactly one run. */
  lemma {:induction false} RunLengthOf(x: string, t: string)
    requires x != [] && forall i :: 0 <= i < |x| ==> !IsSlugChar(x[i])
    requires t == [] || IsSlugChar(t[0])
    ensures RunLength(x + t) == |x|
    decreases |x|
  {
    var u := x + t;
    assert u[0] == x[0] && u[1..] == x[1..] + t;
    if |x| > 1 {
      RunLengthOf(x[1..], t);
    } else {
      assert u[1..] == t;
    }
  }

  /** Each maximal run outside `[a-z0-9]` becomes exactly one `-`. */
  lemma CollapseRun(x: string, t: string)
    requires x != [] && forall i :: 0 <= i < |x| ==> !IsSlugChar(x[i])
    requires t == [] || IsSlugChar(t[0])
    ensures CollapseRuns(x + t) == "-" + CollapseRuns(t)
  {
    RunLengthOf(x, t);
    assert (x + t)[|x|..] == t;
  }

  /** A word, then a run, then the rest: the word is kept, the run becomes
      one `-`, and the rest is replaced on its own. */
  lemma CollapseWordThenRun(w: string, x: string, t: string)
    requires forall i :: 0 <= i < |w| ==> IsSlugChar(w[i])
    requires x != [] && forall i :: 0 <= i < |x| ==> !IsSlugChar(x[i])
    requires t == [] || IsSlugChar(t[0])
    ensures CollapseRuns(w + x + t) == w + "-" + CollapseRuns(t)
  {
    ConcatAssoc(w, x, t);
    CollapseWord(w, x + t);
    CollapseRun(x, t);
    ConcatAssoc(w, "-", CollapseRuns(t));
  }

  /** A worked title: words are joined by one `-` whatever separated them. */
  lemma SlugOfTitle()
    ensures Slugify("My Project!! 2024") == "my-project-2024"
  {
    LowerTitle();
    CollapseTitle();
    assert StripDashes("my-project-2024") == "my-project-2024";
  }

  lemma LowerTitle()
    ensures ToLower("My Project!! 2024") == "my project!! 2024"
  {
  }

  lemma CollapseTitle()
    ensures CollapseRuns("my project!! 2024") == "my-project-2024"
  {
    TitleWords();
    CollapseThreeWords("my", " ", "project", "!! ", "2024");
  }

  lemma TitleWords()
    ensures "my" + " " + "project" + "!! " + "2024" == "my project!! 2024"
    ensures "my" + "-" + "project" + "-" + "2024" == "my-project-2024"
  {
  }

  /** Three words separated by two runs become the words joined by `-`. */
  lemma CollapseThreeWords(a: string, x: string, b: string, y: string, c: string)
    requires forall i :: 0 <= i < |a| ==> IsSlugChar(a[i])
    requires forall i :: 0 <= i < |b| ==> IsSlugChar(b[i])
    requires forall i :: 0 <= i < |c| ==> IsSlugChar(c[i])
    requires b != [] && c != []
    requires x != [] && forall i :: 0 <= i < |x| ==> !IsSlugChar(x[i])
    requires y != [] && forall i :: 0 <= i < |y| ==> !IsSlugChar(y[i])
    ensures CollapseRuns(a + x + b + y + c) == a + "-" + b + "-" + c
  {
    CollapseWord(c, "");
    assert c + "" == c;
    CollapseWordThenRun(b, y, c);
    ConcatAssoc(a + x, b, y);
    ConcatAssoc(a + x, b + y, c);
    CollapseWordThenRun(a, x, b + y + c);
    ConcatAssoc(a + "-", b, "-");
    ConcatAssoc(a + "-", b + "-", c);
  }

  /** Lowercasing leaves a dash-separated text alone. */
  lemma ToLowerDashSeparated(t: string)
    requires DashSeparated(t)
    ensures ToLower(t) == t
  {
  }

  lemma {:induction false} CollapseDashSeparated(t: string)
    requires DashSeparated(t)
    ensures CollapseRuns(t) == t
    decreases |t|
  {
    if t != [] {
      assert DashSeparated(t[1..]);
      CollapseDashSeparated(t[1..]);
      if !IsSlugChar(t[0]) {
        assert RunLength(t) == 1 by {
          if |t| > 1 {
            assert t[1] != '-';
          }
        }
      }
    }
  }

  /** Slugifying a slug gives it back. */
  lemma SlugifyIdempotent(title: string)
    ensures Slugify(Slugify(title)) == Slugify(title)
  {
    var s := Slugify(title);
    ToLowerDashSeparated(s);
    CollapseDashSeparated(s);
  }

  lemma {:induction false} CollapseKeepsSlugChars(s: string)
    ensures Filter(CollapseRuns(s), IsSlugChar) == Filter(s, IsSlugChar)
    decreases |s|
  {
    if s != [] {
      var c := CollapseRuns(s);
      if IsSlugChar(s[0]) {
        CollapseKeepsSlugChars(s[1..]);
        assert c[0] == s[0] && c[1..] == CollapseRuns(s[1..]);
      } else {
        var n := RunLength(s);
        CollapseKeepsSlugChars(s[n..]);
        assert c[0] == '-' && c[1..] == CollapseRuns(s[n..]);
        DropRunKeepsSlugChars(s, n);
      }
    }
  }

  /** Dropping characters outside `[a-z0-9]` keeps the filtered text. */
  lemma DropRunKeepsSlugChars(s: string, n: nat)
    requires n <= |s| && forall i :: 0 <= i < n ==> !IsSlugChar(s[i])
    ensures Filter(s[n..], IsSlugChar) == Filter(s, IsSlugChar)
  {
    SplitAt(s, n);
    FilterConcat(s[..n], s[n..], IsSlugChar);
    FilterNone(s[..n], IsSlugChar);
  }

  lemma StripKeepsSlugChars(t: string)
    ensures Filter(StripDashes(t), IsSlugChar) == Filter(t, IsSlugChar)
  {
    var a := if t != [] && t[0] == '-' then t[1..] else t;
    if t != [] && t[0] == '-' {
      assert !IsSlugChar(t[0]);
    }
    if a != [] && a[|a| - 1] == '-' {
      FilterDropRejected(a, IsSlugChar);
    }
  }

  /** The slug keeps every letter and digit of the lowercased title, in
      order, and nothing else but dashes. */
  lemma SlugKeepsLettersAndDigits(title: string)
    ensures Filter(Slugify(title), IsSlugChar) == Filter(ToLower(title), IsSlugChar)
  {
    CollapseKeepsSlugChars(ToLower(title));
    StripKeepsSlugChars(CollapseRuns(ToLower(title)));
  }

  // ---------------------------------------------------------------------
  // GET /api/projects/:id and /api/projects/slug/:slug

  /** A section as the nested select returns it, with its elements under
      `section_elements` (absent when the join produced nothing). */
  datatype RawSection = RawSection(
    id: int,
    project_id: int,
    order_index: Option<int>,
    title: Option<string>,
    columns: int,
    section_elements: Option<seq<Element>>)

  /** `(a.order_index || 0)` on a raw section. */
  function RawKey(s: RawSection): int {
    s.order_index.GetOr(0)
  }

  /** `{...section, elements: section.section_elements ? sorted : []}` */
  function WithElements(s: RawSection): (r: Section)
    ensures r.id == s.id && r.project_id == s.project_id && r.order_index == s.order_index
    ensures r.title == s.title && r.columns == s.columns
    ensures SortedBy(r.elements, OrderKey)
    ensures s.section_elements.None? ==> r.elements == []
    ensures s.section_elements.Some? ==> multiset(r.elements) == multiset(s.section_elements.value)
  {
    Section(s.id, s.project_id, s.order_index, s.title, s.columns,
      if s.section_elements.Some? then SortBy(s.section_elements.value, OrderKey) else [])
  }

  /** `WithElements` on each section, in order. */
  function AttachElements(s: seq<RawSection>): seq<Section> {
    MapSeq(WithElements, s)
  }

  /** The `sections` of a project GET response: sorted by `order_index`
      (missing counts as 0), each with its elements sorted the same way.
      A project without `sections` is returned as it is. The result is the
      attached sections stably sorted by key: the same sections, each as
      often as in the input, with sections of equal key in input order. */
  function SortNested(sections: Option<seq<RawSection>>): (r: Option<seq<Section>>)
    ensures r.None? <==> sections.None?
    ensures r.Some? ==> |r.value| == |sections.value|
    ensures r.Some? ==> SortedBy(r.value, SectionKey)
    ensures r.Some? ==> multiset(r.value) == multiset(AttachElements(sections.value))
    ensures r.Some? ==> forall k :: WithKey(r.value, SectionKey, k) == WithKey(AttachElements(sections.value), SectionKey, k)
    ensures r.Some? ==> forall i :: 0 <= i < |r.value| ==> AttachedFrom(r.value[i], sections.value)
  {
    if sections.None? then None
    else
      var sorted := SortBy(sections.value, RawKey);
      var r := AttachElements(sorted);
      MapSortBy(WithElements, sections.value, RawKey, SectionKey);
      assert forall k :: WithKey(r, SectionKey, k) == WithKey(AttachElements(sections.value), SectionKey, k) by {
        forall k {
          SortByStable(AttachElements(sections.value), SectionKey, k);
        }
      }
      InputsAttached(sections.value, sorted, r);
      Some(r)
  }

  /** `x` is one of the input sections with its elements attached. */
  predicate AttachedFrom(x: Section, input: seq<RawSection>) {
    exists j :: 0 <= j < |input| && x == WithElements(input[j])
  }

  lemma InputsAttached(input: seq<RawSection>, sorted: seq<RawSection>, r: seq<Section>)
    requires multiset(sorted) == multiset(input)
    requires |r| == |sorted| && forall i :: 0 <= i < |sorted| ==> r[i] == WithElements(sorted[i])
    ensures forall i :: 0 <= i < |r| ==> AttachedFrom(r[i], input)
  {
    forall i | 0 <= i < |r|
      ensures AttachedFrom(r[i], input)
    {
      assert sorted[i] in multiset(input);
      var j :| 0 <= j < |input| && input[j] == sorted[i];
      assert r[i] == WithElements(input[j]);
    }
  }

  // ---------------------------------------------------------------------
  // POST /api/projects/reorder and /api/sections/:id/reorder

  /** `order.id` names row `n`. */
  predicate Targets(entry: JsValue, n: int) {
    Prop(entry, "id") == Some(Num(n))
  }

  /** An entry the loop reads a property of would throw on. */
  predicate IsNullish(entry: JsValue) {
    entry.Undefined? || entry.Null?
  }

  /** The `order_index` written by an entry: `None` when the update is
      refused, `Some(None)` when the property is absent and so omitted from
      the update. */
  function SentOrder(entry: JsValue): Option<Option<int>> {
    match Prop(entry, "order_index")
    case Some(Num(v)) => Some(Some(v))
    case Some(Undefined) => Some(None)
    case _ => None
  }

  /** `order.column_index || 0`; `None` when the value is truthy but not a
      number, which the database refuses. */
  function SentColumn(entry: JsValue): Option<int>
    requires !IsNullish(entry)
  {
    var v := Or(Prop(entry, "column_index").value, Num(0));
    if v.Num? then Some(v.n) else None
  }

  /** One `update({order_index}).eq('id', order.id)` on `projects`; a refused
      or failing update (`fails`) leaves the table as it was. */
  function ProjectStep(projects: map<int, Project>, entry: JsValue, fails: bool): map<int, Project> {
    var id := Prop(entry, "id");
    var order := SentOrder(entry);
    if !fails && id.Some? && id.value.Num? && id.value.n in projects && order.Some? then
      var p := projects[id.value.n];
      projects[id.value.n := p.(order_index := order.value.GetOr(p.order_index))]
    else projects
  }

  /** The `projects` table after the updates of `entries` in turn; `failing`
      holds the positions whose update reports an error. */
  function ProjectsAfter(projects: map<int, Project>, entries: seq<JsValue>, failing: set<nat>): map<int, Project>
    decreases |entries|
  {
    if entries == [] then projects
    else
      var k := |entries| - 1;
      ProjectStep(ProjectsAfter(projects, entries[..k], failing), entries[k], k in failing)
  }

  /** One `update({order_index, column_index: order.column_index || 0})` on
      `section_elements`. */
  function ElementStep(elements: map<int, ElementRow>, entry: JsValue, fails: bool): map<int, ElementRow>
    requires !IsNullish(entry)
  {
    var id := Prop(entry, "id");
    var order := SentOrder(entry);
    var column := SentColumn(entry);
    if !fails && id.Some? && id.value.Num? && id.value.n in elements && order.Some? && column.Some? then
      var e := elements[id.value.n];
      elements[id.value.n := e.(order_index := order.value.GetOr(e.order_index), column_index := Some(column.value))]
    else elements
  }

  function ElementsAfter(elements: map<int, ElementRow>, entries: seq<JsValue>, failing: set<nat>): map<int, ElementRow>
    requires forall i :: 0 <= i < |entries| ==> !IsNullish(entries[i])
    decreases |entries|
  {
    if entries == [] then elements
    else
      var k := |entries| - 1;
      ElementStep(ElementsAfter(elements, entries[..k], failing), entries[k], k in failing)
  }

  /** One more entry is one more step. */
  lemma ProjectsAfterStep(projects: map<int, Project>, entries: seq<JsValue>, failing: set<nat>, i: nat)
    requires i < |entries|
    ensures ProjectsAfter(projects, entries[..i + 1], failing)
         == ProjectStep(ProjectsAfter(projects, entries[..i], failing), entries[i], i in failing)
  {
    assert entries[..i + 1][..i] == entries[..i];
  }

  lemma ElementsAfterStep(elements: map<int, ElementRow>, entries: seq<JsValue>, failing: set<nat>, i: nat)
    requires i < |entries| && forall j :: 0 <= j <= i ==> !IsNullish(entries[j])
    ensures forall j :: 0 <= j < i ==> !IsNullish(entries[..i][j])
    ensures ElementsAfter(elements, entries[..i + 1], failing)
         == ElementStep(ElementsAfter(elements, entries[..i], failing), entries[i], i in failing)
  {
    assert entries[..i + 1][..i] == entries[..i];
  }

  /** How far the loop gets: the position of the first entry it throws on,
      or the number of entries. */
  function Reached(entries: seq<JsValue>): (t: nat)
    ensures t <= |entries|
    ensures forall i :: 0 <= i < t ==> !IsNullish(entries[i])
    ensures t < |entries| ==> IsNullish(entries[t])
  {
    var k := FindIndex(entries, IsNullish);
    if k == -1 then |entries| else k
  }

  /** The project reorder handler on the body field `projectOrders`. Entries
      are applied one at a time in the given order; an update the database
      refuses is skipped; an entry that is null or undefined throws, which
      answers 500 and keeps the updates already made. */
  method ReorderProjects(db: Database, projectOrders: JsValue, failing: set<nat>) returns (status: int)
    requires db.Valid()
    modifies db
    ensures db.Valid()
    ensures !projectOrders.Arr? ==> status == 400 && unchanged(db)
    ensures projectOrders.Arr? ==>
      var entries := projectOrders.items;
      var t := Reached(entries);
      && (status == 200 <==> t == |entries|)
      && (status == 500 <==> t < |entries|)
      && db.projects == ProjectsAfter(old(db.projects), entries[..t], failing)
    ensures db.sections == old(db.sections) && db.elements == old(db.elements) && db.nextId == old(db.nextId)
  {
    if !projectOrders.Arr? {
      return 400;
    }
    var entries := projectOrders.items;
    for i := 0 to |entries|
      invariant forall j :: 0 <= j < i ==> !IsNullish(entries[j])
      invariant db.projects == ProjectsAfter(old(db.projects), entries[..i], failing)
      invariant db.sections == old(db.sections) && db.elements == old(db.elements) && db.nextId == old(db.nextId)
      invariant db.Valid()
    {
      if IsNullish(entries[i]) {
        assert Reached(entries) == i;
        return 500;
      }
      ProjectsAfterStep(old(db.projects), entries, failing, i);
      db.projects := ProjectStep(db.projects, entries[i], i in failing);
    }
    assert entries[..|entries|] == entries;
    status := 200;
  }

  /** The element reorder handler on the body field `elementOrders`. The
      section id of the route is not used. */
  method ReorderElements(db: Database, elementOrders: JsValue, failing: set<nat>) returns (status: int)
    requires db.Valid()
    modifies db
    ensures db.Valid()
    ensures !elementOrders.Arr? ==> status == 400 && unchanged(db)
    ensures elementOrders.Arr? ==>
      var entries := elementOrders.items;
      var t := Reached(entries);
      && (status == 200 <==> t == |entries|)
      && (status == 500 <==> t < |entries|)
      && db.elements == ElementsAfter(old(db.elements), entries[..t], failing)
    ensures db.sections == old(db.sections) && db.projects == old(db.projects) && db.nextId == old(db.nextId)
  {
    if !elementOrders.Arr? {
      return 400;
    }
    var entries := elementOrders.items;
    for i := 0 to |entries|
      invariant forall j :: 0 <= j < i ==> !IsNullish(entries[j])
      invariant db.elements == ElementsAfter(old(db.elements), entries[..i], failing)
      invariant db.sections == old(db.sections) && db.projects == old(db.projects) && db.nextId == old(db.nextId)
      invariant db.Valid()
    {
      if IsNullish(entries[i]) {
        assert Reached(entries) == i;
        return 500;
      }
      ElementsAfterStep(old(db.elements), entries, failing, i);
      db.elements := ElementStep(db.elements, entries[i], i in failing);
    }
    assert entries[..|entries|] == entries;
    status := 200;
  }

  // Properties of the reorder loops

  /** Project reorder changes nothing but `order_index`, and no row appears
      or disappears. */
  lemma {:induction false} ProjectsAfterOnlyOrder(projects: map<int, Project>, entries: seq<JsValue>, failing: set<nat>)
    ensures ProjectsAfter(projects, entries, failing).Keys == projects.Keys
    ensures forall id :: id in projects ==>
      ProjectsAfter(projects, entries, failing)[id] == projects[id].(order_index := ProjectsAfter(projects, entries, failing)[id].order_index)
    decreases |entries|
  {
    if entries != [] {
      ProjectsAfterOnlyOrder(projects, entries[..|entries| - 1], failing);
    }
  }

  /** A project no entry names keeps its row. */
  lemma {:induction false} ProjectsAfterUnlisted(projects: map<int, Project>, entries: seq<JsValue>, failing: set<nat>, n: int)
    requires n in projects
    requires forall i :: 0 <= i < |entries| ==> !Targets(entries[i], n)
    ensures n in ProjectsAfter(projects, entries, failing)
    ensures ProjectsAfter(projects, entries, failing)[n] == projects[n]
    decreases |entries|
  {
    if entries != [] {
      ProjectsAfterUnlisted(projects, entries[..|entries| - 1], failing, n);
    }
  }

  /** Entry `entry`, at a position whose update `fails` or not, writes an
      `order_index` into project `n`. */
  predicate SetsProjectOrder(entry: JsValue, fails: bool, n: int) {
    !fails && Targets(entry, n) && SentOrder(entry).Some? && SentOrder(entry).value.Some?
  }

  /** A later entry for the same id overrides an earlier one: the last
      successful entry naming a project decides its `order_index`. Later
      entries for that project that fail, are refused or send no
      `order_index` do not change it. */
  lemma {:induction false} ProjectsAfterLastWins(projects: map<int, Project>, entries: seq<JsValue>, failing: set<nat>,
                                                 j: nat, n: int, v: int)
    requires j < |entries| && n in projects && j !in failing
    requires Targets(entries[j], n) && Prop(entries[j], "order_index") == Some(Num(v))
    requires forall i :: j < i < |entries| ==> !SetsProjectOrder(entries[i], i in failing, n)
    ensures n in ProjectsAfter(projects, entries, failing)
    ensures ProjectsAfter(projects, entries, failing)[n].order_index == v
    decreases |entries|
  {
    var k := |entries| - 1;
    ProjectsAfterOnlyOrder(projects, entries[..k], failing);
    if k != j {
      assert entries[..k][j] == entries[j];
      ProjectsAfterLastWins(projects, entries[..k], failing, j, n, v);
    }
  }

  /** Element reorder changes nothing but `order_index` and `column_index`. */
  lemma {:induction false} ElementsAfterOnlyOrder(elements: map<int, ElementRow>, entries: seq<JsValue>, failing: set<nat>)
    requires forall i :: 0 <= i < |entries| ==> !IsNullish(entries[i])
    ensures ElementsAfter(elements, entries, failing).Keys == elements.Keys
    ensures forall id :: id in elements ==>
      var e := ElementsAfter(elements, entries, failing)[id];
      e == elements[id].(order_index := e.order_index, column_index := e.column_index)
    decreases |entries|
  {
    if entries != [] {
      ElementsAfterOnlyOrder(elements, entries[..|entries| - 1], failing);
    }
  }

  /** An element no entry names keeps its row. */
  lemma {:induction false} ElementsAfterUnlisted(elements: map<int, ElementRow>, entries: seq<JsValue>, failing: set<nat>, n: int)
    requires forall i :: 0 <= i < |entries| ==> !IsNullish(entries[i])
    requires n in elements
    requires forall i :: 0 <= i < |entries| ==> !Targets(entries[i], n)
    ensures n in ElementsAfter(elements, entries, failing)
    ensures ElementsAfter(elements, entries, failing)[n] == elements[n]
    decreases |entries|
  {
    if entries != [] {
      ElementsAfterUnlisted(elements, entries[..|entries| - 1], failing, n);
    }
  }

  /** Entry `entry` is an update of element `n` that the database applies. */
  predicate UpdatesElement(entry: JsValue, fails: bool, n: int)
    requires !IsNullish(entry)
  {
    !fails && Targets(entry, n) && SentOrder(entry).Some? && SentColumn(entry).Some?
  }

  /** The last successful entry naming an element decides its `order_index`
      and its `column_index`, a falsy column becoming 0. Later entries for
      that element that fail or are refused do not change it. */
  lemma {:induction false} ElementsAfterLastWins(elements: map<int, ElementRow>, entries: seq<JsValue>, failing: set<nat>,
                                                 j: nat, n: int, v: int)
    requires forall i :: 0 <= i < |entries| ==> !IsNullish(entries[i])
    requires j < |entries| && n in elements && j !in failing
    requires Targets(entries[j], n) && Prop(entries[j], "order_index") == Some(Num(v))
    requires SentColumn(entries[j]).Some?
    requires forall i :: j < i < |entries| ==> !UpdatesElement(entries[i], i in failing, n)
    ensures n in ElementsAfter(elements, entries, failing)
    ensures ElementsAfter(elements, entries, failing)[n].order_index == v
    ensures ElementsAfter(elements, entries, failing)[n].column_index == SentColumn(entries[j])
    ensures !Truthy(Prop(entries[j], "column_index").value) ==>
      ElementsAfter(elements, entries, failing)[n].column_index == Some(0)
    decreases |entries|
  {
    var k := |entries| - 1;
    ElementsAfterOnlyOrder(elements, entries[..k], failing);
    if k != j {
      assert entries[..k][j] == entries[j];
      ElementsAfterLastWins(elements, entries[..k], failing, j, n, v);
    }
  }

  // ---------------------------------------------------------------------
  // POST /api/sections and /api/sections/:id/elements

  /** `title || 'New Section'` as stored. */
  function SectionTitle(title: JsValue): (r: Option<string>)
    ensures !Truthy(title) ==> r == Some("New Section")
    ensures Truthy(title) && title.Str? ==> r == Some(title.s)
  {
    TextColumn(Or(title, Str("New Section")))
  }

  /** `parseInt(columns) || 1`: NaN and 0 give one column. */
  function SectionColumns(columns: JsValue): (r: int)
    ensures r != 0
    ensures ParseInt(columns).Num? && ParseInt(columns).n != 0 ==> r == ParseInt(columns).n
    ensures ParseInt(columns).NaN? || ParseInt(columns) == Num(0) ==> r == 1
  {
    var c := Or(ParseInt(columns), Num(1));
    if c.Num? then c.n else 1
  }

  lemma SectionColumnsOfNumber(n: int)
    ensures SectionColumns(Num(n)) == if n == 0 then 1 else n
  {
    ParseIntOfNumber(n);
  }

  /** The section creation endpoint: the title and column count get their
      defaults and `order_index` is always 0, whatever the project holds. */
  method CreateSection(db: Database, project_id: int, title: JsValue, columns: JsValue) returns (id: int)
    requires db.Valid()
    modifies db
    ensures db.Valid()
    ensures id !in old(db.sections)
    ensures db.sections == old(db.sections)[id := SectionRow(project_id, 0, SectionTitle(title), SectionColumns(columns))]
    ensures db.projects == old(db.projects) && db.elements == old(db.elements)
  {
    id := db.InsertSection(SectionRow(project_id, 0, SectionTitle(title), SectionColumns(columns)));
  }

  /** The body of the element creation endpoint. A text field is `None` when
      it is absent or null; `column_index` tells absent (`None`) from null
      (`Some(None)`). */
  datatype ElementBody = ElementBody(
    kind: Option<string>,
    content: Option<string>,
    media_url: Option<string>,
    alt_text: Option<string>,
    caption: Option<string>,
    embed_url: Option<string>,
    order_index: Option<int>,
    column_index: Option<Option<int>>)

  /** The row the element creation endpoint inserts. */
  function NewElementRow(section_id: int, b: ElementBody): (r: ElementRow)
    ensures r.section_id == section_id && r.kind == b.kind
    ensures r.content == Some(TextOrEmpty(b.content)) && r.alt_text == Some(TextOrEmpty(b.alt_text))
    ensures r.caption == Some(TextOrEmpty(b.caption)) && r.embed_url == Some(TextOrEmpty(b.embed_url))
    ensures r.media_url.None? <==> b.media_url.None? || b.media_url == Some("")
    ensures r.media_url.Some? ==> r.media_url == b.media_url
    ensures r.order_index == (if b.order_index.Some? then b.order_index.value else 0)
    ensures b.column_index.None? ==> r.column_index == Some(0)
    ensures b.column_index.Some? ==> r.column_index == b.column_index.value
  {
    ElementRow(
      section_id,
      b.order_index.GetOr(0),
      if b.column_index.None? then Some(0) else b.column_index.value,
      b.kind,
      Some(b.content.GetOr("")),
      if b.media_url == Some("") then None else b.media_url,
      Some(b.alt_text.GetOr("")),
      Some(b.caption.GetOr("")),
      Some(b.embed_url.GetOr("")))
  }

  method CreateElement(db: Database, section_id: int, body: ElementBody) returns (id: int)
    requires db.Valid()
    modifies db
    ensures db.Valid()
    ensures id !in old(db.elements)
    ensures db.elements == old(db.elements)[id := NewElementRow(section_id, body)]
    ensures db.projects == old(db.projects) && db.sections == old(db.sections)
  {
    id := db.InsertElement(NewElementRow(section_id, body));
  }

  // ---------------------------------------------------------------------
  // POST /api/media/upload

  /** What the storage upload reports back. */
  datatype Upload = Upload(key: string, url: string, originalName: string, mimetype: string, size: int)

  /** `s.split('/').pop()`: the text after the last `/`. */
  function LastSegment(s: string): (r: string)
    ensures |r| <= |s| && r == s[|s| - |r|..]
    ensures forall i :: 0 <= i < |r| ==> r[i] != '/'
    ensures |r| < |s| ==> s[|s| - |r| - 1] == '/'
  {
    if s == [] then []
    else if s[|s| - 1] == '/' then []
    else LastSegment(s[..|s| - 1]) + [s[|s| - 1]]
  }

  /** The media row written after an upload: an image when the MIME type
      starts with `image/`, a video otherwise, filed in the `media` folder. */
  function MediaRow(id: int, u: Upload): (m: MediaItem)
    ensures m.file_type == "image" <==> StartsWith(u.mimetype, "image/")
    ensures m.file_type == "video" <==> !StartsWith(u.mimetype, "image/")
    ensures m.filename == LastSegment(u.key)
    ensures m.storage_key == u.key && m.url == u.url && m.original_name == u.originalName && m.mimetype == u.mimetype
    ensures m.file_size == u.size && m.folder == "media" && m.id == id
  {
    MediaItem(id, LastSegment(u.key), u.originalName,
      if StartsWith(u.mimetype, "image/") then "image" else "video",
      u.size, u.mimetype, u.url, u.key, "media")
  }
}
