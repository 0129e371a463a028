# Portfolio CMS core in Dafny

This project models the rules at the centre of a small portfolio content
management system. Each project is made of sections, and each section holds
ordered elements in one to four columns:

- **Section model (API).** Section creation, with column-count validation
  and the next `order_index` of the project. Element creation, with type
  validation, the next `order_index` of its (section, column) pair and
  normalisation of embed URLs for YouTube, Vimeo and SoundCloud. The
  renaming of legacy field names in update payloads.
- **REST layer.** The slug derived from a project title. The order of
  nested sections and elements in a project GET. The best-effort batch
  reorder endpoints. The defaults of the section and element creation
  endpoints. The media row written after an upload.
- **Admin client.**
  - The section editor: drag-and-drop reorder, add, update and delete of
    elements, and delete of sections.
  - The dashboard: drag-and-drop reorder scoped to one category, a delete
    confirmed in a dialog, and the split of the project list by category.
  - The element editor's save payload, cancel and media selection.
  - The media library's selection, search, deletes and upload.
- **Public page.** The section renderer's sort, column grouping, title
  visibility and layout choice, and the rewriting of legacy storage URLs.

The hosted database is an in-memory `Store.Database` object: one map from
id to row per table, and a counter that hands out fresh ids. Every handler
that awaits a server call takes the call's outcome as a parameter; a failed
call is `None` or `false`. A component's state is a class whose fields the
handlers reassign. Each handler's new state is stated as a function of the
old state, and lemmas about those functions carry the properties.

Files:

- `wrappers.dfy`: `Option` and `Result`.
- `js.dfy`: the JavaScript semantics the code relies on:
  - truthiness and `||`;
  - `parseInt` and `String(v)`;
  - `trim` and ASCII `toLowerCase`;
  - `includes`, `indexOf` and `startsWith`;
  - `replace` with a string pattern.
- `ordering.dfy`: the library operations on sequences: `arrayMove`, `findIndex`, `filter`, and the stable sort with a numeric key.
- `types.dfy`: the records of `src/types/index.ts`.
- `store.dfy`: the in-memory database.
- `embed.dfy`: the embed-URL normaliser and hand-written matchers for its three regular expressions.
- `section_model.dfy`: `api/models/Section.js`.
- `api.dfy`: `api/index.js`.
- One file per client module: `section_editor.dfy`, `admin_dashboard.dfy`, `section_renderer.dfy`, `element_editor.dfy`, `media_library.dfy`, `image_utils.dfy`.

## Model

| member | source | states |
|---|---|---|
| Ordering.ArrayMove | src/components/admin/SectionEditor.tsx:265 | `arrayMove` gives a permutation of the same length. The moved element sits at the target index and the other elements keep their relative order. |
| Ordering.ArrayMoveAt | src/components/admin/SectionEditor.tsx:265 | Where every position ends up after a move: the moved element lands at the target, the elements between the two positions shift one place towards the gap, and all other elements stay in place. |
| Ordering.SortBy | api/index.js:70-78 | The sort with comparator `key(a) - key(b)` gives a permutation of its input that is non-decreasing by the key. |
| Ordering.SortByStable | api/index.js:70-78 | The sort is stable: for every key value, the elements with that key keep their input order. |
| Ordering.SortBySorted | src/components/admin/SectionEditor.tsx:158-165 | An input already in key order comes back unchanged. |
| Ordering.FilterSplit | src/pages/admin/AdminDashboard.tsx:178-179 | Filtering by a predicate and by its negation splits the multiset of elements between the two results. |
| Ordering.FindIndex | src/pages/admin/AdminDashboard.tsx:181-182 | `findIndex` returns the first position whose element satisfies the predicate, or -1 exactly when no element does. |
| Ordering.Filter | src/components/admin/MediaLibrary.tsx:51 | `filter` keeps exactly the elements that satisfy the predicate, never lengthens the list, and never adds an occurrence. |
| Ordering.FilterSelects | src/pages/admin/AdminDashboard.tsx:178-179 | The result of `filter` is exactly the satisfying elements of the input, taken in input order, one entry per satisfying position. |
| Ordering.PositionsExact | src/pages/admin/AdminDashboard.tsx:178-179 | The positions `filter` keeps are in range, strictly increasing, satisfy the predicate, and include every satisfying position. |
| Ordering.SelectsUnique | src/pages/admin/AdminDashboard.tsx:178-179 | Only one list is the in-order selection of the satisfying elements, so any two such lists are equal. |
| Ordering.FilterCount | src/components/admin/MediaLibrary.tsx:76 | `filter` keeps each satisfying value exactly as often as it occurs in the input, and drops every other value. |
| Ordering.FilterConcat | src/pages/admin/AdminDashboard.tsx:178-179 | Filtering a concatenation is the concatenation of the filtered parts. |
| Ordering.FilterAll | src/components/admin/SectionEditor.tsx:212 | A list whose every element satisfies the predicate is returned unchanged. |
| Ordering.FilterNone | src/components/admin/SectionEditor.tsx:212 | A list with no satisfying element gives the empty list. |
| Ordering.MapSortBy | api/index.js:70-78 | Transforming each element and then sorting by a key equals sorting by the matching key and then transforming, when the transform carries the key over. |
| Js.TrimStart | src/utils/imageUtils.ts:11 | The leading-trimmed text is a suffix of the input, does not start with whitespace, and everything cut off is whitespace. |
| Js.TrimEnd | src/utils/imageUtils.ts:11 | The trailing-trimmed text is a prefix of the input, does not end with whitespace, and everything cut off is whitespace. |
| Js.TrimEmptyIffBlank | src/utils/imageUtils.ts:11 | `s.trim() === ''` holds exactly when `s` consists only of whitespace. |
| Js.ToLowerCases | src/components/admin/MediaLibrary.tsx:114-115 | `toLowerCase` leaves no ASCII capital, maps each capital to its lower-case letter, keeps every other character, and is idempotent. |
| Js.IndexOfFrom | src/utils/imageUtils.ts:16 | `indexOf` from a start position returns the first occurrence at or after it, or -1 exactly when there is none. |
| Js.ParseInt | api/index.js:364 | `parseInt` always gives a number or NaN. |
| Js.ParseStopsAtNonDigit | api/models/Section.js:12 | `parseInt` of decimal digits followed by a non-digit is the value of the digits; the rest is ignored. |
| Js.ParseSkipsBlank | api/index.js:364 | `parseInt` skips leading whitespace. |
| Js.ParseTextIsNaN | api/index.js:364 | Text that starts with anything but whitespace, a sign or a digit parses to NaN. |
| Js.ParseDigits | api/models/Section.js:12 | `parseInt` of a string of decimal digits, with an optional minus sign, is its decimal value, negated for the minus. |
| Js.ParseIntOfNumber | api/models/Section.js:11 | `parseInt` gives back any integer it is handed as a number. |
| Js.ReplaceFirst | src/utils/imageUtils.ts:18-21 | `replace` with a string pattern changes only the first occurrence, and leaves a string without an occurrence unchanged. |
| Js.ReplaceLeadingPrefix | src/utils/imageUtils.ts:18-21 | Replacing a pattern that a string starts with swaps that prefix and keeps the rest. |
| Store.MaxValue | api/models/Section.js:18-25 | The top row of `ORDER BY order_index DESC LIMIT 1`: `None` exactly for an empty scope, otherwise a value of the scope that is at least every other value. |
| Store.NextOrderOf | api/models/Section.js:16-24 | The next order of a scope is 1 when the scope is empty. Otherwise it exceeds every order in the scope and is one more than an order in it. |
| Store.NextOrderCountsUp | api/models/Section.js:18-36 | After an insert at the next order of a scope, the next order of that scope is exactly one more: orders count up 1, 2, 3, ... |
| Store.SectionOrdersAfterInsert | api/models/Section.js:18-36 | Inserting a section adds its order to the order scope of its own project only; the scope of every other project is unchanged. |
| Store.ColumnOrdersAfterInsert | api/models/Section.js:196-242 | Inserting an element adds its order to the scope of its own (section, column) pair only; every other pair's scope is unchanged. |
| Store.Database.InsertSection | api/models/Section.js:27-36 | An insert adds exactly one section row under a fresh id and leaves the other tables alone. |
| Store.Database.InsertElement | api/models/Section.js:228-242 | An insert adds exactly one element row under a fresh id and leaves the other tables alone. |
| Embed.YouTubeAt | api/models/Section.js:495 | A YouTube match captures an 11-character id free of `"`, `&`, `?`, `/` and whitespace. |
| Embed.VimeoAt | api/models/Section.js:500 | A Vimeo match captures a non-empty run of digits. |
| Embed.SoundCloudAt | api/models/Section.js:505 | A SoundCloud match is `soundcloud.com/` followed by two non-empty runs of `[a-zA-Z0-9-_]` separated by `/`. |
| Embed.MatchAt | api/models/Section.js:514 | A match of a platform's pattern at a position captures a string of that pattern's shape: an 11-character YouTube id, a Vimeo digit run, or the whole SoundCloud match `soundcloud.com/` + two name runs separated by `/`. |
| Embed.Search | api/models/Section.js:514 | `url.match` succeeds only with a capture of the pattern's shape. |
| Embed.SearchFinds | api/models/Section.js:514 | A pattern that matches at any position is found by `url.match`. |
| Embed.SearchLeftmost | api/models/Section.js:514 | `url.match` returns the match at the leftmost position that has one. |
| Embed.DecodeEncode | api/models/Section.js:506 | Percent-decoding `encodeURIComponent` of an ASCII text gives the text back. |
| Embed.ValidateAndParseEmbed | api/models/Section.js:492-532 | The result is valid iff some pattern matches. Its platform is the first of YouTube, Vimeo and SoundCloud whose pattern matches, and no earlier platform matches. `originalUrl` is the input and `embedUrl` is that platform's rewrite. Without a match the result is invalid with the fixed "Unsupported embed URL" message. |
| Embed.ShortLinkRecognised | api/models/Section.js:495 | Any URL that contains `youtu.be/` followed by eleven id characters is recognised as YouTube. |
| Embed.EmbedLinkRecognised | api/models/Section.js:495 | Any URL that contains `youtube.com/embed/` followed by eleven id characters is recognised as YouTube. |
| Embed.VimeoLinkRecognised | api/models/Section.js:500 | Any URL that contains `vimeo.com/` followed by a digit is recognised as Vimeo. |
| Embed.NoHostNoMatch | api/models/Section.js:492-531 | A URL that names none of the three hosts matches no pattern. |
| Embed.YouTubeShape | api/models/Section.js:495-496 | A YouTube result is `https://www.youtube.com/embed/` + an 11-character id free of `"&?/` and whitespace + `?rel=0`. |
| Embed.VimeoShape | api/models/Section.js:500-501 | A Vimeo result is `https://player.vimeo.com/video/` + a non-empty digit run + the fixed player options. |
| Embed.SoundCloudCarriesTrack | api/models/Section.js:505-506 | A SoundCloud result is the widget prefix + an encoded parameter that decodes to `https://` + the track path + the fixed widget options. |
| SectionModel.ColumnCount | api/models/Section.js:8-15 | `parseInt` of the count (1 when undefined) is accepted iff it is one of 1, 2, 3 and 4, and is then the result. Otherwise the error is "Invalid column count: " + the parsed value + ". Must be 1, 2, 3, or 4." |
| SectionModel.ColumnCountOfDigits | api/models/Section.js:11-15 | A count sent as a string of decimal digits is accepted iff its value is 1 to 4, and is then that value. |
| SectionModel.ColumnCountOfNumber | api/models/Section.js:11-15 | A numeric column count is accepted iff it lies between 1 and 4, and is then kept. Otherwise the error is "Invalid column count: n. Must be 1, 2, 3, or 4." |
| SectionModel.ColumnCountDefault | api/models/Section.js:8 | A missing column count means one column. |
| SectionModel.ElementType | api/models/Section.js:190-193 | A type is accepted iff it is one of text, image, video, quote and embed, compared strictly. Otherwise the error names the value and lists the five types. |
| SectionModel.EditorType | api/models/Section.js:272-277 | `editorType` is file-upload exactly for image and video, embed-url exactly for embed, and rich-text for everything else. |
| SectionModel.ColumnStructure | api/models/Section.js:44-51 | `column_structure` has one entry per column, numbered from 1, each with no elements. |
| SectionModel.Create | api/models/Section.js:6-63 | The column count is validated first. The new section's order exceeds every order in the project and is their maximum plus one, or 1 for a project without sections. `section_type` (default 'content') becomes the title, and exactly one section row is added. |
| SectionModel.MetaText | api/models/Section.js:207-208 | `metadata?.alt_text \|\| ''` is the metadata value when that is present and truthy, and `''` when the metadata, the field or its truthiness is missing. |
| SectionModel.EmbedFields | api/models/Section.js:213-229 | An embed element with a truthy URL is accepted iff its URL is a string some pattern matches, and then stores the normalised URL and the validator's platform, URL and embed URL. A refused string URL gets the validator's message. Any other element keeps its URL and has no embed data. |
| SectionModel.AddElement | api/models/Section.js:174-286 | It succeeds exactly when the type is valid and any embed URL is accepted. An invalid type is refused with its message, and no error changes the database. The order exceeds every order in the section's column and is their maximum plus one, or 1 for an empty column. An embed with a truthy URL stores the normalised URL and its `embed_data`, or is refused with the validator's message. `unique_key`, `editor_type`, the defaulted text fields and the `alt_text`/`caption` taken from `metadata` are as the source builds them. |
| SectionModel.RenameIfTruthy | api/models/Section.js:341-352 | A truthy legacy field moves to its new name and the legacy key is deleted. A falsy one leaves both keys as they were. No other key changes. |
| SectionModel.FlattenMetadata | api/models/Section.js:355-360 | A truthy `metadata` becomes `alt_text` and `caption` (each `''` by default) and is deleted. A falsy one leaves the payload unchanged. |
| SectionModel.RenameLegacyElementFields | api/models/Section.js:342-353 | Each of `element_type`, `column_position` and `element_order` moves to its new name when truthy, and no key outside those six changes. |
| SectionModel.PrepareElementUpdate | api/models/Section.js:337-362 | The three legacy renamings and the metadata flattening are applied, `updated_at` is set to the given time, and every other key is kept as sent. |
| SectionModel.PrepareSectionUpdate | api/models/Section.js:429-443 | A truthy `section_type` is renamed to `title` and a truthy `section_order` to `order_index`. `updated_at` is set, and every other key is kept. |
| SectionModel.FalsyOrderNotRenamed | api/models/Section.js:349-352 | Any falsy `element_order` (0, '', null, false, NaN) stays under its legacy name with its value, and `order_index` is left as the payload had it. |
| SectionModel.ZeroOrderNotRenamed | api/models/Section.js:349-352 | In particular a zero `element_order` never reaches `order_index`. |
| Api.CollapseRuns | api/index.js:143 | Replacing the runs of `[^a-z0-9]+` by `-` gives a text of `[a-z0-9-]` with no two adjacent dashes. It is empty iff the input is, and starts with `-` iff the input starts outside `[a-z0-9]`. |
| Api.CollapseDashSeparated | api/index.js:143 | The run replacement leaves a dash-separated text unchanged. |
| Api.CollapseWord | api/index.js:143 | A run of `[a-z0-9]` at the front passes through the replacement unchanged. |
| Api.CollapseRun | api/index.js:143 | A maximal run of characters outside `[a-z0-9]` at the front becomes exactly one `-`, whatever its length. |
| Api.CollapseWordThenRun | api/index.js:143 | A word followed by a maximal non-slug run becomes the word and a single `-`, and the rest is replaced independently. |
| Api.SlugOfTitle | api/index.js:142-144 | The title "My Project!! 2024" gives the slug "my-project-2024". |
| Api.Slugify | api/index.js:142-144 | A slug contains only `a-z`, `0-9` and `-`, has no two adjacent dashes and neither starts nor ends with `-`. |
| Api.SlugifyIdempotent | api/index.js:142-144 | Slugifying a slug gives it back. |
| Api.SlugKeepsLettersAndDigits | api/index.js:142-144 | The slug keeps every letter and digit of the lowercased title, in order, and adds only dashes. |
| Api.CollapseKeepsSlugChars | api/index.js:143 | The run replacement keeps the letters and digits, in order. |
| Api.StripKeepsSlugChars | api/index.js:144 | Removing the leading and trailing dash keeps the letters and digits. |
| Api.WithElements | api/index.js:73-77 | A section keeps its fields. Its elements are sorted by `order_index` (missing counts as 0) and are a permutation of `section_elements`, or `[]` when those are absent. |
| Api.SortNested | api/index.js:70-78 | A project without sections is left as it is. Otherwise the sections, each with its elements attached and sorted, are returned as a permutation of the input sections, sorted by `order_index` (missing counts as 0), with equal orders kept in input order. |
| Api.Reached | api/index.js:430-435 | The loop gets through the entries up to the first null or undefined entry, on which it throws. |
| Api.ReorderProjects | api/index.js:421-442 | A body whose `projectOrders` is not an array answers 400 and changes nothing. Otherwise the entries are applied one at a time in order; refused or failing updates are skipped. The answer is 200 iff no entry is nullish and 500 otherwise. Only the projects table changes. |
| Api.ReorderElements | api/index.js:484-509 | The same for `elementOrders` on the elements table. |
| Api.ProjectsAfterOnlyOrder | api/index.js:430-435 | The project reorder changes nothing but `order_index`, and no row appears or disappears. |
| Api.ProjectsAfterUnlisted | api/index.js:430-435 | A project no entry names keeps its row. |
| Api.ProjectsAfterLastWins | api/index.js:430-435 | The last successful entry that names a project decides its `order_index`: later entries for it that fail, are refused or send no `order_index` leave that value. |
| Api.ElementsAfterOnlyOrder | api/index.js:494-502 | The element reorder changes nothing but `order_index` and `column_index`. |
| Api.ElementsAfterUnlisted | api/index.js:494-502 | An element no entry names keeps its row. |
| Api.ElementsAfterLastWins | api/index.js:494-502 | The last successful entry that names an element decides its `order_index` and its `column_index`, and a falsy column becomes 0. Later entries for it that fail or are refused leave both. |
| Api.SectionTitle | api/index.js:363 | A falsy title is stored as 'New Section' and a non-empty string is stored as given. |
| Api.SectionColumns | api/index.js:364 | The stored column count is never 0. A non-zero parsed count is kept, and NaN or 0 gives 1. |
| Api.SectionColumnsOfNumber | api/index.js:364 | A numeric count n is stored as n, or as 1 when n is 0. |
| Api.CreateSection | api/index.js:353-380 | The endpoint inserts one section row with the defaulted title and columns and `order_index` 0, under a fresh id. |
| Api.NewElementRow | api/index.js:391-403 | Missing text fields become `''`, an absent or empty `media_url` becomes null, a missing `order_index` becomes 0, and `column_index` becomes 0 only when it is undefined (null is kept). |
| Api.CreateElement | api/index.js:384-417 | The endpoint inserts exactly that row under a fresh id. |
| Api.LastSegment | api/index.js:275 | `key.split('/').pop()` is the suffix of the key after its last `/` and contains no `/`. |
| Api.MediaRow | api/index.js:272-282 | `file_type` is 'image' iff the MIME type starts with `image/`, and 'video' otherwise. `filename` is the last segment of the storage key, `folder` is 'media', and the original name, size, MIME type, URL and key are copied from the upload. |
| SectionEditor.FindSection | src/components/admin/SectionEditor.tsx:257 | `sections.find` by id returns the first section with that id, or none. |
| SectionEditor.FindElement | src/components/admin/SectionEditor.tsx:259-260 | `findIndex` by id returns the first position with that id, or -1. |
| SectionEditor.SetElements | src/components/admin/SectionEditor.tsx:268-270 | Only the sections with the dragged section's id get the new list; all other sections are unchanged. |
| SectionEditor.Dragged | src/components/admin/SectionEditor.tsx:250-265 | A drag is ignored exactly when there is no target, the target is the source, or either id is not in the section. Otherwise the section's elements become a permutation with the dragged element at the target's position and the others in their relative order. |
| SectionEditor.ElementOrders | src/components/admin/SectionEditor.tsx:274-278 | The payload has one entry per element, in list order: position i as `order_index` and the element's column or 0. |
| SectionEditor.ReorderStoresPositions | src/components/admin/SectionEditor.tsx:274-278 | Once the server has applied this payload with no failing update, every element (ids distinct) has its position 0..n-1 as `order_index` and its column or 0. |
| SectionEditor.AddRequest | src/components/admin/SectionEditor.tsx:147-156 | The requested `order_index` is the section's element count over all columns (0 for an unknown section). The content is the placeholder for a text element and empty otherwise. |
| SectionEditor.WithAdded | src/components/admin/SectionEditor.tsx:158-165 | The target section holds its old elements plus the created one, sorted by `order_index`, with equal orders kept in list order and the new one after the old ones. Other sections are untouched. |
| SectionEditor.AddedGoesLast | src/components/admin/SectionEditor.tsx:158-165 | When the list is in order, every existing order is below the count, and the server kept the requested order, the new element ends up last. |
| SectionEditor.WithUpdated | src/components/admin/SectionEditor.tsx:198-205 | Exactly the elements with the updated id are replaced, in every section. |
| SectionEditor.UpdateIdempotent | src/components/admin/SectionEditor.tsx:198-205 | Applying the same update twice equals applying it once. |
| SectionEditor.WithoutElement | src/components/admin/SectionEditor.tsx:210-213 | The id leaves every section, and every other element stays, in its section's order and as often as before. |
| SectionEditor.DeleteAbsentElement | src/components/admin/SectionEditor.tsx:210-213 | Deleting an id that no section holds changes nothing. |
| SectionEditor.WithoutSection | src/components/admin/SectionEditor.tsx:140 | Exactly the sections with that id go; the others stay in list order, each as often as before. |
| SectionEditor.Editor.constructor | src/components/admin/SectionEditor.tsx:95-111 | The list is the fetched sections, or empty when there are none or the fetch failed. |
| SectionEditor.Editor.HandleDragEnd | src/components/admin/SectionEditor.tsx:250-285 | An ignored drag changes nothing and sends nothing. Otherwise the section's list becomes the moved list and the positions are sent. |
| SectionEditor.Editor.HandleAddElement | src/components/admin/SectionEditor.tsx:172-196 | The request is built from the current list. A created element is added and the list sorted; a failed call changes nothing. |
| SectionEditor.Editor.HandleUpdateElement | src/components/admin/SectionEditor.tsx:198-205 | The list becomes `WithUpdated`. |
| SectionEditor.Editor.HandleDeleteElement | src/components/admin/SectionEditor.tsx:207-218 | The element leaves the list only when the server call succeeded. |
| SectionEditor.Editor.HandleDeleteSection | src/components/admin/SectionEditor.tsx:133-145 | Nothing is sent without confirmation. The section leaves the list only on success. |
| AdminDashboard.FindProject | src/pages/admin/AdminDashboard.tsx:170-171 | `find` by id returns the first project with that id, or none. |
| AdminDashboard.InCategory | src/pages/admin/AdminDashboard.tsx:178 | It holds exactly the projects of the category, in list order and each as often as in the list. |
| AdminDashboard.OutsideCategory | src/pages/admin/AdminDashboard.tsx:179 | It holds exactly the projects of the other categories, in list order and each as often as in the list. |
| AdminDashboard.DragCategory | src/pages/admin/AdminDashboard.tsx:162-175 | A drag is ignored exactly when there is no target, the target is the source, either project is unknown, or the two categories differ. Otherwise it names the dragged project's category. |
| AdminDashboard.MovedCategory | src/pages/admin/AdminDashboard.tsx:178-188 | The category's list becomes a permutation with the dragged project at the target's position and the others in their relative order. |
| AdminDashboard.MovedStaysInCategory | src/pages/admin/AdminDashboard.tsx:178-188 | Every project of the moved list belongs to the dragged category. |
| AdminDashboard.DragKeepsProjects | src/pages/admin/AdminDashboard.tsx:188-190 | A drag never adds or loses a project: the new list is a permutation of the old one. |
| AdminDashboard.DragScopedToCategory | src/pages/admin/AdminDashboard.tsx:178-190 | Afterwards, listing the dragged category gives the moved list and listing any other category gives what it gave before. |
| AdminDashboard.ProjectOrders | src/pages/admin/AdminDashboard.tsx:194-198 | The payload covers the moved category only, with `order_index` 0..n-1 in the new order. |
| AdminDashboard.ReorderStoresPositions | src/pages/admin/AdminDashboard.tsx:194-198 | Once the server has applied the payload with no failing update, the projects of the category (ids distinct) hold the orders 0..n-1 of their positions. |
| AdminDashboard.Partition | src/pages/admin/AdminDashboard.tsx:249-250 | The works list and the parallel discourses list each hold exactly the projects of their category, in list order and each as often as in the list. |
| AdminDashboard.WithoutProject | src/pages/admin/AdminDashboard.tsx:219 | Exactly the projects with that id go. The others stay, in list order and each as often as before. |
| AdminDashboard.Dashboard.constructor | src/pages/admin/AdminDashboard.tsx:130-135 | The dashboard starts with the loaded projects, no project chosen for deletion, and the dialog closed. |
| AdminDashboard.Dashboard.HandleDragEnd | src/pages/admin/AdminDashboard.tsx:162-206 | The list becomes the other categories followed by the moved category. Only the moved category is sent, and an ignored drag sends nothing. |
| AdminDashboard.Dashboard.HandleDeleteClick | src/pages/admin/AdminDashboard.tsx:208-211 | The clicked project is chosen and the dialog opens. |
| AdminDashboard.Dashboard.HandleDeleteConfirm | src/pages/admin/AdminDashboard.tsx:213-228 | Without a chosen project nothing happens. On success exactly that project leaves the list and the dialog closes. On failure the list and the dialog stay. In both cases the deleting flag ends false. |
| SectionRenderer.SortedElements | src/components/project/SectionRenderer.tsx:9-16 | Nothing is rendered exactly when there are no elements. Otherwise the copy is a permutation sorted by `order_index` (missing counts as 0) that keeps the input order among equal orders. |
| SectionRenderer.ColumnCount | src/components/project/SectionRenderer.tsx:19 | `section.columns \|\| 1` is 1 for a zero count and keeps any non-zero count. |
| SectionRenderer.GroupByColumn | src/components/project/SectionRenderer.tsx:20-31 | With more than one column, each element in sorted order is appended to the group of its `column_index`, or of its position mod `columns`. Otherwise there are no groups. |
| SectionRenderer.GroupsKeys | src/components/project/SectionRenderer.tsx:22-31 | A group exists exactly for the columns that some element falls in. |
| SectionRenderer.GroupsHoldEach | src/components/project/SectionRenderer.tsx:22-31 | Every element is in the group of its column. |
| SectionRenderer.GroupsFromInput | src/components/project/SectionRenderer.tsx:22-31 | Every member of a group is an element that falls in that column. |
| SectionRenderer.GroupsSorted | src/components/project/SectionRenderer.tsx:24-30 | Each group is in non-decreasing `order_index` order. |
| SectionRenderer.ColumnPositionsExact | src/components/project/SectionRenderer.tsx:22-31 | The positions of a column are in range, strictly increasing, fall in that column, and include every position that does. |
| SectionRenderer.GroupsInOrder | src/components/project/SectionRenderer.tsx:22-31 | Each column's group is exactly the sorted elements that fall in that column, in sorted order, one entry per position (no group means none fall in it). |
| SectionRenderer.TitleShownIff | src/components/project/SectionRenderer.tsx:35 | The heading is shown iff the title is present, not blank after trim, and not 'New Section'. |
| SectionRenderer.Render | src/components/project/SectionRenderer.tsx:8-60 | No elements means nothing is drawn. A two-column section shows groups 0 and 1. Any other column count shows the sorted list in one column. |
| SectionRenderer.TwoColumnContents | src/components/project/SectionRenderer.tsx:41-49 | In the two-column layout both columns are sorted, and an element without a column appears in the column given by its position mod 2. |
| ElementEditor.UrlOrNull | src/components/admin/ElementEditor.tsx:25 | The selected media URL defaulted to null treats an empty URL as none. |
| ElementEditor.SavePayload | src/components/admin/ElementEditor.tsx:32-49 | Text and quote send exactly `{content}`, embed sends exactly `{embed_url}`, and image and video send exactly `{media_url, alt_text, caption}`. Any other type sends `{}`. |
| ElementEditor.PayloadKeysDisjoint | src/components/admin/ElementEditor.tsx:32-49 | The payload never mixes the content, the embed URL and the media fields, and it is empty exactly for the other types. |
| ElementEditor.Editor.constructor | src/components/admin/ElementEditor.tsx:17-26 | The form starts from the element's values (`''` or null by default), outside edit mode. |
| ElementEditor.Editor.HandleSave | src/components/admin/ElementEditor.tsx:28-60 | The payload built field by field is `SavePayload` of the form and the pre-save element. A successful save makes the answer the editor's element and leaves edit mode; a failed one keeps the element. Loading ends false. |
| ElementEditor.Editor.HandleCancel | src/components/admin/ElementEditor.tsx:62-70 | The form goes back to the current element's values (the saved ones after a successful save) and edit mode ends. |
| ElementEditor.Editor.HandleMediaSelect | src/components/admin/ElementEditor.tsx:72-75 | The chosen URL is selected and the library closes; the rest of the form is untouched. |
| MediaLibrary.Toggled | src/components/admin/MediaLibrary.tsx:118-128 | An absent id is added and a present one removed; no other id changes. |
| MediaLibrary.ToggleTwice | src/components/admin/MediaLibrary.tsx:118-128 | Toggling twice restores the selection. |
| MediaLibrary.FilteredMedia | src/components/admin/MediaLibrary.tsx:113-116 | The result holds exactly the items whose lowercased original name or file name contains the lowercased term, in list order and each as often as in the list. |
| MediaLibrary.EmptySearchKeepsAll | src/components/admin/MediaLibrary.tsx:113-116 | An empty term keeps every item, in order. |
| MediaLibrary.SearchIgnoresCase | src/components/admin/MediaLibrary.tsx:113-116 | Lowercasing the term does not change the result. |
| MediaLibrary.WithoutItem | src/components/admin/MediaLibrary.tsx:51 | Exactly the items with that id go; the others stay in list order. |
| MediaLibrary.WithoutItems | src/components/admin/MediaLibrary.tsx:76 | Exactly the items with a selected id go; the others stay in list order. |
| MediaLibrary.BulkOfOne | src/components/admin/MediaLibrary.tsx:76 | A bulk delete of one id equals the single delete of that id. |
| MediaLibrary.Library.constructor | src/components/admin/MediaLibrary.tsx:16-22 | The library starts with the loaded media, an empty search, and no selection or deletion in flight. |
| MediaLibrary.Library.ToggleSelection | src/components/admin/MediaLibrary.tsx:118-128 | The selection becomes `Toggled` of the old one, and nothing else changes. |
| MediaLibrary.Library.StartDelete | src/components/admin/MediaLibrary.tsx:43-50 | Without confirmation nothing happens. Otherwise the id joins the deleting set and the call is made. |
| MediaLibrary.Library.FinishDelete | src/components/admin/MediaLibrary.tsx:50-60 | On success exactly that id leaves the list. In both cases the id leaves the deleting set. |
| MediaLibrary.Library.StartBulkDelete | src/components/admin/MediaLibrary.tsx:64-73 | Nothing happens for an empty selection or without confirmation. Otherwise the selection is both what is sent and the deleting set. |
| MediaLibrary.Library.FinishBulkDelete | src/components/admin/MediaLibrary.tsx:75-83 | On success every sent id leaves the list and the selection is cleared. In both cases nothing is deleting any more. |
| MediaLibrary.Library.HandleDelete | src/components/admin/MediaLibrary.tsx:43-61 | Without confirmation nothing changes. A confirmed, successful delete removes exactly that id from the list; a failed one keeps the list. Either way the id ends outside the deleting set and the selection is unchanged. |
| MediaLibrary.Library.HandleBulkDelete | src/components/admin/MediaLibrary.tsx:64-84 | An empty selection or no confirmation changes nothing. Otherwise, on success the selected items leave the list and the selection clears; on failure both stay. Nothing is deleting afterwards. |
| MediaLibrary.Library.HandleUpload | src/components/admin/MediaLibrary.tsx:86-102 | The uploaded items go before the existing ones, in upload order. A failed upload changes nothing. |
| ImageUtils.GetImageUrl | src/utils/imageUtils.ts:10-33 | The result is null exactly for a null, undefined, empty or blank URL. A URL naming the storage host has the first legacy prefix replaced. Otherwise a URL naming the retired public host has the first old prefix replaced. Any other URL is returned as given. |
| ImageUtils.LegacyLinkMoved | src/utils/imageUtils.ts:16-22 | A legacy storage link is moved onto the public CDN with its object path kept. |
| ImageUtils.OldPubLinkMoved | src/utils/imageUtils.ts:25-30 | A link on the retired public host moves onto the current host with its path kept, unless it also names the storage host, which takes priority. |

## Left out

- Network, I/O and the hosted database are left out. Supabase queries, Express routing and response wrapping, and the axios client are replaced by the in-memory `Store.Database` and by outcome parameters.
- A database insert in the model always succeeds: no constraint, foreign-key or connection errors. `parseInt(project_id)` and `parseInt(id)` on route parameters are taken to be integers already.
- The PUT routes, the database write of `updateElement`/`update` and their responses, `getElements`, `findById`, `findByProjectId` and `Section.delete` are not modelled. Only the payload preparation of the two updates is modelled.
- `api/models/Project.js`, `api/minimal.js` and the Cloudflare R2 upload and delete are not part of this model. They are foreign SDK calls with random keys.
- `getFallbackImageUrl` (browser `btoa`) and `validateImageUrl` (browser image loading) are not modelled. Nor are React rendering and the UI-only components.
- `RandomProjectNav` shuffles with `Math.random` and is not modelled.
- `handleCreateSection`, `handleEditSection` and `handleSaveSection` of the section editor are not modelled; they are plain form plumbing. The refetch after a failed reorder is not modelled either.
- Concurrency is not modelled: `Promise.all` uploads, a partly failed `deleteMultiple`, and races between reading the maximum order and inserting. Every handler runs to completion in one step; the media deletes are split at their single await.
- The media size display is floating point and is not modelled.
- A media row's `alt_text`, `created_at` and `updated_at` are not modelled: the upload does not write them.
- Numbers are unbounded integers plus NaN. Fractional numbers and values above 2^53 are not modelled.
- `Js.ParseInt`: its own contract only says the result is a number or NaN. Its values are given by `Js.ParseDigits`, `Js.ParseStopsAtNonDigit`, `Js.ParseSkipsBlank`, `Js.ParseTextIsNaN` and `Js.ParseIntOfNumber`. Hexadecimal inputs are modelled but not stated in a lemma.
- `Embed.MatchAt`: states only the shape of a capture; when each matcher succeeds is stated by `Embed.SearchFinds` and the per-platform recognition lemmas.
- `Js.ToLower`: lowercases ASCII letters only. Unicode case mapping is not modelled.
- Client-side `null` and `undefined` fields are both `None`.
- `SectionRenderer.GroupByColumn`: an element whose `column_index` is null is grouped by position like a missing one. In the source, null is kept as the group key "null", so that element does not appear in the two-column layout.
- `Api.ReorderProjects`, `Api.ReorderElements`: an entry whose `id` is a string such as "5" targets no row, whereas Postgres would cast it to the integer id. An entry whose `order_index` is null or not a number, or whose truthy `column_index` is not a number, counts as a refused update and changes nothing. An `order_index` that is undefined leaves the stored value unchanged.
- The GET sort in the source sorts `section_elements` in place. The aliasing of that array is not modelled, only the returned value.
- Drag and drop compares `String(id)` with the dnd-kit ids. The model compares integer ids, which is the same comparison because `String` is one-to-one on integers.
- `SectionEditor.Editor`: every section is assumed to carry an `elements` array, so the `elements || []` fallbacks are the identity.
- `Embed.Search`: models `url.match` only for the three fixed patterns. It uses hand-written matchers that follow the backtracking order, not a general regular-expression engine.
- `Embed.DecodeEncode`: `encodeURIComponent` is modelled on ASCII text only. That covers every SoundCloud match, which is ASCII by its pattern.
