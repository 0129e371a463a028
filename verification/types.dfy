/**
  The records the client and the API exchange (src/types/index.ts). Optional
  fields are `Option`s; `None` stands for a missing (undefined) field. The
  legacy duplicates `element_order`, `column_position` and `element_type`
  are not carried: every operation modelled here reads the database names
  `order_index`, `column_index` and `type`.
*/
module Types {
  import opened Wrappers

  const Works := "works"
  const ParallelDiscourses := "parallel discourses"

  /** A portfolio project; `category` is `Works` or `ParallelDiscourses`,
      and `order_index` orders a project within its category. */
  datatype Project = Project(
    id: int,
    title: string,
    subtitle: Option<string>,
    year: int,
    category: string,
    slug: string,
    coming_soon: bool,
    order_index: int)

  /** A content element of a section. `kind` is the `type` field: one of
      'text', 'image', 'video', 'quote', 'embed' when it comes from the
      database. */
  datatype Element = Element(
    id: int,
    section_id: int,
    order_index: Option<int>,
    column_index: Option<int>,
    kind: Option<string>,
    content: Option<string>,
    media_url: Option<string>,
    embed_url: Option<string>,
    alt_text: Option<string>,
    caption: Option<string>)

  /** A titled, column-structured block of a project with its elements. */
  datatype Section = Section(
    id: int,
    project_id: int,
    order_index: Option<int>,
    title: Option<string>,
    columns: int,
    elements: seq<Element>)

  /** A row of the media library. */
  datatype MediaItem = MediaItem(
    id: int,
    filename: string,
    original_name: string,
    file_type: string,
    file_size: int,
    mimetype: string,
    url: string,
    storage_key: string,
    folder: string)

  /** `(e.order_index || 0)`: the sort key of an element. */
  function OrderKey(e: Element): int {
    e.order_index.GetOr(0)
  }

  /** `(s.order_index || 0)`: the sort key of a section. */
  function SectionKey(s: Section): int {
    s.order_index.GetOr(0)
  }
}
