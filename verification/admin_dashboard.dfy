/**
  The admin dashboard (src/pages/admin/AdminDashboard.tsx): the project list
  in the component state `projects`, reordered by drag and drop within one
  category at a time, and a delete that goes through a confirmation dialog.
  As in the section editor, a server call's outcome is a parameter.
*/
module AdminDashboard {
  import opened Wrappers
  import opened Js
  import opened Ordering
  import opened Types
  import Api

  /** The position of the first project with id `id`, or -1. */
  function FindProject(ps: seq<Project>, id: int): (k: int)
    ensures -1 <= k < |ps|
    ensures 0 <= k ==> ps[k].id == id && forall j :: 0 <= j < k ==> ps[j].id != id
    ensures k == -1 ==> forall j :: 0 <= j < |ps| ==> ps[j].id != id
  {
    FindIndex(ps, (p: Project) => p.id == id)
  }

  /** The callback `p => p.category === c`. */
  function CategoryIs(c: string): Project -> bool {
    (p: Project) => p.category == c
  }

  /** The callback `p => p.category !== c`. */
  function CategoryIsNot(c: string): Project -> bool {
    (p: Project) => p.category != c
  }

  /** The projects of category `c`, in list order. */
  function InCategory(ps: seq<Project>, c: string): (r: seq<Project>)
    ensures forall p :: p in r <==> p in ps && p.category == c
    ensures Selects(r, ps, CategoryIs(c))
  {
    FilterSelects(ps, CategoryIs(c));
    Filter(ps, CategoryIs(c))
  }

  /** The projects of every other category, in list order. */
  function OutsideCategory(ps: seq<Project>, c: string): (r: seq<Project>)
    ensures forall p :: p in r <==> p in ps && p.category != c
    ensures Selects(r, ps, CategoryIsNot(c))
  {
    FilterSelects(ps, CategoryIsNot(c));
    Filter(ps, CategoryIsNot(c))
  }

  /** The category a drag of `active` onto `over` reorders, or `None` when
      the drag is ignored: no drop target, a drop on itself, an unknown id,
      or two projects of different categories. */
  function DragCategory(ps: seq<Project>, active: int, over: Option<int>): (r: Option<string>)
    ensures r.Some? <==>
      && over.Some? && over.value != active
      && FindProject(ps, active) >= 0 && FindProject(ps, over.value) >= 0
      && ps[FindProject(ps, active)].category == ps[FindProject(ps, over.value)].category
    ensures r.Some? ==> r.value == ps[FindProject(ps, active)].category
  {
    if over.None? || over.value == active then None
    else
      var a := FindProject(ps, active);
      var o := FindProject(ps, over.value);
      if a == -1 || o == -1 || ps[a].category != ps[o].category then None
      else Some(ps[a].category)
  }

  /** `moved` is `cat` with the project at `from` moved to `to`: the same
      projects, the moved one at `to` and the others in their old order. */
  predicate IsMove(cat: seq<Project>, moved: seq<Project>, from: int, to: int) {
    && 0 <= from < |cat| && 0 <= to < |cat|
    && |moved| == |cat|
    && multiset(moved) == multiset(cat)
    && moved[to] == cat[from]
    && moved[..to] + moved[to + 1..] == cat[..from] + cat[from + 1..]
  }

  /** The category's projects after the drag: the dragged project lands at
      the target's position, the others keep their relative order. */
  function MovedCategory(ps: seq<Project>, active: int, over: Option<int>): (r: Option<seq<Project>>)
    ensures r.Some? ==> DragCategory(ps, active, over).Some?
    ensures DragCategory(ps, active, over).None? ==> r.None?
    ensures r.Some? ==>
      var cat := InCategory(ps, DragCategory(ps, active, over).value);
      var from := FindProject(cat, active);
      IsMove(cat, r.value, from, FindProject(cat, over.value)) && cat[from].id == active
  {
    var c := DragCategory(ps, active, over);
    if c.None? then None
    else
      var cat := InCategory(ps, c.value);
      var from := FindProject(cat, active);
      var to := FindProject(cat, over.value);
      if from == -1 || to == -1 then None
      else Some(ArrayMove(cat, from, to))
  }

  /** Every project of the moved list belongs to the dragged category. */
  lemma MovedStaysInCategory(ps: seq<Project>, active: int, over: Option<int>)
    requires MovedCategory(ps, active, over).Some?
    ensures var r := MovedCategory(ps, active, over).value;
      forall i :: 0 <= i < |r| ==> r[i].category == DragCategory(ps, active, over).value
  {
    var r := MovedCategory(ps, active, over).value;
    var cat := InCategory(ps, DragCategory(ps, active, over).value);
    forall i | 0 <= i < |r|
      ensures r[i].category == DragCategory(ps, active, over).value
    {
      assert r[i] in multiset(cat);
    }
  }

  /** The whole list after a drag: the other categories in their original
      order, then the reordered category. */
  function AfterDrag(ps: seq<Project>, active: int, over: Option<int>): (r: seq<Project>)
  {
    var moved := MovedCategory(ps, active, over);
    if moved.None? then ps
    else OutsideCategory(ps, DragCategory(ps, active, over).value) + moved.value
  }

  /** A drag never adds or loses a project. */
  lemma DragKeepsProjects(ps: seq<Project>, active: int, over: Option<int>)
    ensures multiset(AfterDrag(ps, active, over)) == multiset(ps)
  {
    var moved := MovedCategory(ps, active, over);
    if moved.Some? {
      var c := DragCategory(ps, active, over).value;
      FilterSplit(ps, (p: Project) => p.category == c, (p: Project) => p.category != c);
    }
  }

  /** After a drag in category `c`, listing that category gives the moved
      list, and listing any other category gives what it gave before. */
  lemma DragScopedToCategory(ps: seq<Project>, active: int, over: Option<int>, d: string)
    requires MovedCategory(ps, active, over).Some?
    ensures var c := DragCategory(ps, active, over).value;
      InCategory(AfterDrag(ps, active, over), d) ==
        if d == c then MovedCategory(ps, active, over).value else InCategory(ps, d)
  {
    var c := DragCategory(ps, active, over).value;
    var moved := MovedCategory(ps, active, over).value;
    var others := OutsideCategory(ps, c);
    assert AfterDrag(ps, active, over) == others + moved;
    MovedStaysInCategory(ps, active, over);
    ConcatByCategory(others, moved, c, d);
    if d != c {
      OutsideThenInside(ps, c, d);
    }
  }

  /** Listing category `d` of a list made of projects outside `c` followed
      by projects of `c`. */
  lemma ConcatByCategory(others: seq<Project>, moved: seq<Project>, c: string, d: string)
    requires forall i :: 0 <= i < |others| ==> others[i].category != c
    requires forall i :: 0 <= i < |moved| ==> moved[i].category == c
    ensures InCategory(others + moved, d) == if d == c then moved else InCategory(others, d)
  {
    InCategoryConcat(others, moved, d);
    if d == c {
      InCategoryNone(others, d);
      InCategoryAll(moved, d);
    } else {
      InCategoryNone(moved, d);
    }
  }

  lemma {:induction false} InCategoryConcat(a: seq<Project>, b: seq<Project>, d: string)
    ensures InCategory(a + b, d) == InCategory(a, d) + InCategory(b, d)
  {
    if a != [] {
      var x, t := a[0], a[1..];
      var u := a + b;
      assert u[0] == x && u[1..] == t + b;
      InCategoryConcat(t, b, d);
      if x.category == d {
        ConsAssoc(x, InCategory(t, d), InCategory(b, d));
      }
    } else {
      assert a + b == b;
    }
  }

  lemma {:induction false} InCategoryNone(a: seq<Project>, d: string)
    requires forall i :: 0 <= i < |a| ==> a[i].category != d
    ensures InCategory(a, d) == []
  {
    if a != [] {
      InCategoryNone(a[1..], d);
    }
  }

  lemma {:induction false} InCategoryAll(a: seq<Project>, d: string)
    requires forall i :: 0 <= i < |a| ==> a[i].category == d
    ensures InCategory(a, d) == a
  {
    if a != [] {
      InCategoryAll(a[1..], d);
    }
  }

  /** Projects of a category other than `c` keep their order when the
      projects of `c` are taken out. */
  lemma {:induction false} OutsideThenInside(ps: seq<Project>, c: string, d: string)
    requires c != d
    ensures InCategory(OutsideCategory(ps, c), d) == InCategory(ps, d)
  {
    if ps != [] {
      var rest := OutsideCategory(ps[1..], c);
      OutsideThenInside(ps[1..], c, d);
      if ps[0].category == c {
        assert OutsideCategory(ps, c) == rest;
      } else {
        var o := [ps[0]] + rest;
        assert OutsideCategory(ps, c) == o;
        assert o[0] == ps[0] && o[1..] == rest;
        assert InCategory(o, d) == (if ps[0].category == d then [ps[0]] else []) + InCategory(rest, d);
      }
    }
  }

  /** One entry of the project reorder request. */
  datatype ProjectOrder = ProjectOrder(id: int, order_index: int, category: string)

  /** The request after a drag: the reordered category only, each project
      with its position in it. */
  function ProjectOrders(moved: seq<Project>): (r: seq<ProjectOrder>)
    ensures |r| == |moved|
    ensures forall i :: 0 <= i < |r| ==>
      r[i].id == moved[i].id && r[i].order_index == i && r[i].category == moved[i].category
  {
    seq(|moved|, i requires 0 <= i < |moved| => ProjectOrder(moved[i].id, i, moved[i].category))
  }

  function OrderJson(o: ProjectOrder): (v: JsValue)
    ensures Prop(v, "id") == Some(Num(o.id))
    ensures Prop(v, "order_index") == Some(Num(o.order_index))
  {
    Obj(map["id" := Num(o.id), "order_index" := Num(o.order_index), "category" := Str(o.category)])
  }

  function RequestJson(orders: seq<ProjectOrder>): (r: seq<JsValue>)
    ensures |r| == |orders|
    ensures forall i :: 0 <= i < |r| ==> r[i] == OrderJson(orders[i])
  {
    seq(|orders|, i requires 0 <= i < |orders| => OrderJson(orders[i]))
  }

  /** Once the server has applied the request without a failing update,
      every project of the reordered category (ids distinct) has its
      position as its order: the category's orders run 0..n-1. */
  lemma ReorderStoresPositions(rows: map<int, Project>, moved: seq<Project>, i: nat)
    requires i < |moved| && moved[i].id in rows
    requires forall a, b :: 0 <= a < b < |moved| ==> moved[a].id != moved[b].id
    ensures var after := Api.ProjectsAfter(rows, RequestJson(ProjectOrders(moved)), {});
      moved[i].id in after && after[moved[i].id].order_index == i
  {
    var entries := RequestJson(ProjectOrders(moved));
    forall k | i < k < |entries|
      ensures !Api.Targets(entries[k], moved[i].id)
    {
      assert Prop(entries[k], "id") == Some(Num(moved[k].id));
    }
    Api.ProjectsAfterLastWins(rows, entries, {}, i, moved[i].id, i);
  }

  /** The two lists the dashboard shows: the works and the parallel
      discourses, each in list order. */
  function Partition(ps: seq<Project>): (r: (seq<Project>, seq<Project>))
    ensures forall p :: p in r.0 <==> p in ps && p.category == Works
    ensures forall p :: p in r.1 <==> p in ps && p.category == ParallelDiscourses
    ensures Selects(r.0, ps, CategoryIs(Works)) && Selects(r.1, ps, CategoryIs(ParallelDiscourses))
  {
    (InCategory(ps, Works), InCategory(ps, ParallelDiscourses))
  }

  /** The callback `p => p.id !== id`. */
  function IdIsNot(id: int): Project -> bool {
    (p: Project) => p.id != id
  }

  /** The list after a confirmed delete: exactly the projects with that id
      are gone, the others stay in order. */
  function WithoutProject(ps: seq<Project>, id: int): (r: seq<Project>)
    ensures forall p :: p in r <==> p in ps && p.id != id
    ensures multiset(r) <= multiset(ps)
    ensures Selects(r, ps, IdIsNot(id))
  {
    FilterSelects(ps, IdIsNot(id));
    Filter(ps, IdIsNot(id))
  }

  /** The dashboard's state. */
  class Dashboard {
    var projects: seq<Project>
    var projectToDelete: Option<Project>
    var deleteModalOpen: bool
    var deleting: bool

    constructor (loaded: seq<Project>)
      ensures projects == loaded && projectToDelete.None? && !deleteModalOpen && !deleting
    {
      projects := loaded;
      projectToDelete := None;
      deleteModalOpen := false;
      deleting := false;
    }

    /** `handleDragEnd`: the list becomes `AfterDrag` and the request covers
        the dragged category only; an ignored drag sends nothing. */
    method HandleDragEnd(active: int, over: Option<int>) returns (projectOrders: Option<seq<ProjectOrder>>)
      modifies this
      ensures projects == AfterDrag(old(projects), active, over)
      ensures var moved := MovedCategory(old(projects), active, over);
        && (moved.None? ==> projectOrders.None?)
        && (moved.Some? ==> projectOrders == Some(ProjectOrders(moved.value)))
      ensures projectToDelete == old(projectToDelete) && deleteModalOpen == old(deleteModalOpen)
      ensures deleting == old(deleting)
    {
      var moved := MovedCategory(projects, active, over);
      var after := AfterDrag(projects, active, over);
      if moved.None? {
        assert after == projects;
        return None;
      }
      projects := after;
      projectOrders := Some(ProjectOrders(moved.value));
    }

    method HandleDeleteClick(project: Project)
      modifies this
      ensures projectToDelete == Some(project) && deleteModalOpen
      ensures projects == old(projects) && deleting == old(deleting)
    {
      projectToDelete := Some(project);
      deleteModalOpen := true;
    }

    /** `handleDeleteConfirm`; `deleted` is whether the server call
        succeeded. On success exactly the chosen project leaves the list
        and the dialog closes; on failure the state stays as it was. */
    method HandleDeleteConfirm(deleted: bool)
      modifies this
      ensures old(projectToDelete).None? ==> projects == old(projects) && projectToDelete.None?
      ensures old(projectToDelete).Some? && deleted ==>
        && projects == WithoutProject(old(projects), old(projectToDelete).value.id)
        && projectToDelete.None? && !deleteModalOpen
      ensures old(projectToDelete).Some? && !deleted ==>
        projects == old(projects) && projectToDelete == old(projectToDelete) && deleteModalOpen == old(deleteModalOpen)
      ensures old(projectToDelete).Some? ==> !deleting
      ensures old(projectToDelete).None? ==> deleting == old(deleting) && deleteModalOpen == old(deleteModalOpen)
    {
      if projectToDelete.None? {
        return;
      }
      deleting := true;
      if deleted {
        projects := WithoutProject(projects, projectToDelete.value.id);
        deleteModalOpen := false;
        projectToDelete := None;
      }
      deleting := false;
    }
  }
}
