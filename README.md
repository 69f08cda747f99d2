# Gwanli indexing core in Dafny

Gwanli indexes a Notion workspace. This project models the parts of it that work on data
already in memory:

- the slug resolver, which gives every page and database reachable from the workspace root a
  unique `/`-path built from its sanitized title;
- the record shaping around it: titles, parents, the page/database-row partition, property
  flattening, database preview tables and page markdown;
- the tree view of slugs and the `listFiles` chain that prepares slugs for it;
- the job status tracker, a class over its status file;
- the block-to-markdown renderer of the page download script and the page records of the
  page-fetching script;
- the XML listing of an inline database used by the MCP server;
- the SQLite task-example store: its connection lifecycle, full-text query builder and
  most-recent padding of short result lists;
- the two environment validators, of the core package and of the MCP server.

Notion API calls, the file system, clocks, randomness and SQL are not executed by the model.
Their results are inputs, and the functions the code calls into (`JSON.stringify`,
`path.join`, zod's URL check, the FTS5 engine) are parameters.

Modules, one per source file or component:

- `Wrappers`: Option and Result.
- `Strings`: JavaScript string operations as the code uses them: `trim`, `split`, `join`,
  `split(/\s+/)`, `replace` with a string pattern, integer rendering.
- `NotionTypes`: Notion rich-text fragments, parents, property values, pages, databases and
  blocks.
- `Slug`, `SlugResolver`, `Notion`: `packages/gwanli-core/src/lib/notion.ts`.
- `SlugTree`: `packages/gwanli-core/src/lib/tree.ts`.
- `WorkspaceExplorer`: `packages/gwanli-core/src/lib/workspace-explorer.ts`.
- `Jobs`: `packages/gwanli-core/src/lib/jobs.ts`.
- `PageDownload`: `scripts/download-notion-pages.ts`.
- `PageRecords`: `scripts/fetch_notion_pages.ts`.
- `DatabaseXml`: `packages/mcp/src/lib/notion-database-transformer.ts`.
- `TaskStorage`: `packages/mcp/src/lib/sqlite-storage.ts`.
- `CoreEnv`: `packages/core/src/env.ts`.
- `McpEnv`: `packages/mcp/src/lib/env.ts`.

The imperative parts keep their form:

- `generateSlugs` is a pair of mutually recursive methods threading `slugMap` and
  `usedSlugs`, with the suffix `while` loop.
- `extract_properties`, `buildTree`, `convertBlocksToMarkdown`, `extractPageTitle` and the
  XML builder are loops.
- `JobTracker` and the SQLite store are classes whose methods update their fields.

Each of these is proved against a specification function, and the properties are lemmas
about that function.

## Model

| member | source | states |
|---|---|---|
| Slug.LowerCaseMeaning | packages/gwanli-core/src/lib/notion.ts:186 | after lowercasing no `A`-`Z` remains; each uppercase ASCII letter becomes its lowercase letter, every other character is kept, and lowercasing again changes nothing |
| Slug.KeepAllowed | packages/gwanli-core/src/lib/notion.ts:187 | only `[a-z0-9-]` and whitespace survive; text already of that alphabet is unchanged |
| Slug.DashSpaceRuns | packages/gwanli-core/src/lib/notion.ts:188 | after whitespace runs become `-`, text of the kept alphabet is all slug characters; text without whitespace is unchanged |
| Slug.DropDashes | packages/gwanli-core/src/lib/notion.ts:190 | the result is a suffix of the input that does not start with `-` |
| Slug.SquashDashes | packages/gwanli-core/src/lib/notion.ts:189 | collapsing dash runs leaves no `--` and keeps the first character's kind |
| Slug.SquashKeepsSlugChars | packages/gwanli-core/src/lib/notion.ts:189 | collapsing dash runs keeps text within `[a-z0-9-]` |
| Slug.SquashFixes | packages/gwanli-core/src/lib/notion.ts:189 | text with no `--` is unchanged by collapsing |
| Slug.TrimDashes | packages/gwanli-core/src/lib/notion.ts:190 | removing the leading and trailing `-` from slug text without `--` yields a slug component; a slug component is unchanged |
| Slug.SanitizeSlug | packages/gwanli-core/src/lib/notion.ts:184-191 | every output has only `[a-z0-9-]`, no `--`, and no leading or trailing `-` |
| Slug.SanitizeFixesComponents | packages/gwanli-core/src/lib/notion.ts:184-191 | sanitizing a slug component returns it unchanged |
| Slug.SanitizeIdempotent | packages/gwanli-core/src/lib/notion.ts:184-191 | sanitizing twice equals sanitizing once |
| SlugResolver.SlugPathInjective | packages/gwanli-core/src/lib/notion.ts:248-253 | distinct suffix counters give distinct candidate paths |
| SlugResolver.FreshComponent | packages/gwanli-core/src/lib/notion.ts:248-253 | the suffix loop stops at the first candidate (`c`, `c-1`, `c-2`, ...) whose full path is unused, and every earlier candidate path is used |
| SlugResolver.ChildrenMeaning | packages/gwanli-core/src/lib/notion.ts:236-241 | the filter keeps only items of the list whose parent is the current one (workspace roots for none), keeps every such item, and keeps them in item order |
| SlugResolver.ChildrenDistinct | packages/gwanli-core/src/lib/notion.ts:236-241 | the filtered children of distinct-id items have distinct ids |
| SlugResolver.AllItems | packages/gwanli-core/src/lib/notion.ts:227 | the item list is pages then databases, of the combined length |
| SlugResolver.NewSlugAssigned | packages/gwanli-core/src/lib/notion.ts:248-257 | the slug stored for a child extends its parent's slug by the first free candidate of its sanitized title |
| SlugResolver.AddKeepsInv | packages/gwanli-core/src/lib/notion.ts:255-257 | storing a fresh path keeps the map injective, keyed by item ids, equal in values to `usedSlugs`, and of the parent-extension shape |
| SlugResolver.FreshParentHasNoKeyedChild | packages/gwanli-core/src/lib/notion.ts:256-260 | when an item first gets its slug, none of its children has one yet, so the recursive call meets only unslugged children |
| SlugResolver.WalkStep | packages/gwanli-core/src/lib/notion.ts:243-261 | after one loop iteration, the first `i+1` children have slugs, later ones do not, and every new slug belongs to a child or to an item whose parent newly got a slug |
| SlugResolver.ProcessItems | packages/gwanli-core/src/lib/notion.ts:231-262 | `processItems` keeps the map invariant, only adds entries, gives every child of the current parent a slug, and slugs nothing outside that subtree |
| SlugResolver.ProcessChild | packages/gwanli-core/src/lib/notion.ts:244-260 | one loop body gives the child its slug, keeps the invariant and slugs only the child's subtree |
| SlugResolver.AfterSubtree | packages/gwanli-core/src/lib/notion.ts:256-260 | after the recursive call, the new entries are the child and the descendants reached through it |
| SlugResolver.GenerateSlugs | packages/gwanli-core/src/lib/notion.ts:223-268 | the map's keys are item ids; slugs are pairwise distinct; an item has a slug exactly when it is reachable from a workspace root through page parents; each slug is its parent's slug (`""` for a root) plus `/` plus the first candidate of its sanitized title (`t`, `t-1`, `t-2`, ...) that no sibling earlier in item order holds; siblings with the same sanitized title get increasing suffixes in item order; every slug starts with `/` |
| SlugResolver.AddKeepsFirstFree | packages/gwanli-core/src/lib/notion.ts:243-257 | storing a child's first free candidate, while no later sibling has a slug yet, keeps every slug equal to the first candidate of its title not held by a sibling earlier in item order |
| SlugResolver.NewFirstFree | packages/gwanli-core/src/lib/notion.ts:248-257 | the slug recorded for a child skips only candidates held by siblings earlier in item order |
| SlugResolver.SkippedHeldEarlier | packages/gwanli-core/src/lib/notion.ts:248-253 | a candidate the suffix loop skips as used is the slug of a sibling that comes earlier in item order |
| SlugResolver.CandidateOwner | packages/gwanli-core/src/lib/notion.ts:248-255 | a stored slug that is a candidate under a parent's slug belongs to a child of that parent, so used paths of other subtrees never block a candidate |
| SlugResolver.SameDirectory | packages/gwanli-core/src/lib/notion.ts:255 | a path `p/c` with no `/` in `c` determines `p` |
| SlugResolver.FirstFreeGivesOrder | packages/gwanli-core/src/lib/notion.ts:243-257 | when every slug is the first candidate not held by an earlier sibling and no slug is given twice, same-titled siblings hold increasing suffixes in item order |
| SlugResolver.SlugIsAbsolute | packages/gwanli-core/src/lib/notion.ts:255-265 | every stored slug starts with `/`, whatever the depth |
| SlugResolver.SameTitleRoots | packages/gwanli-core/src/lib/notion.ts:223-268 | three workspace pages titled `Notes`, `notes`, `Notes` get `/notes`, `/notes-1`, `/notes-2` in list order |
| SlugResolver.PathKeyed | packages/gwanli-core/src/lib/notion.ts:236-241 | every item at the end of a parent chain from a workspace root gets a slug |
| SlugResolver.PathExtend | packages/gwanli-core/src/lib/notion.ts:240 | a parent chain extended by a child of its last item is a parent chain |
| SlugResolver.SuffixIsLonger | packages/gwanli-core/src/lib/notion.ts:255 | a child's slug is strictly longer than its parent's |
| SlugResolver.RootReachable | packages/gwanli-core/src/lib/notion.ts:238 | a workspace-parented item is reachable |
| SlugResolver.ChildReachable | packages/gwanli-core/src/lib/notion.ts:240 | a page-parented child of a reachable item is reachable |
| SlugResolver.KeyedReachable | packages/gwanli-core/src/lib/notion.ts:255-260 | every slugged item is reachable from a workspace root |
| SlugResolver.KeyedIffReachable | packages/gwanli-core/src/lib/notion.ts:236-265 | a finished walk slugs exactly the reachable items, each with a slug of the parent-extension shape |
| Notion.PlainTextConcat | packages/gwanli-core/src/lib/notion.ts:143-147 | the joined text of two fragment lists is the join of each, with no separator, and one fragment gives its own `plain_text` |
| Notion.ExtractTitle | packages/gwanli-core/src/lib/notion.ts:193-206 | a title is never empty; which fragment it is, is stated by `ExtractTitleCases` |
| Notion.ExtractTitleCases | packages/gwanli-core/src/lib/notion.ts:193-206 | a database's title is its first fragment; a page's title is the first fragment of its first title-typed property; a missing or empty fragment, or no title-typed property, gives `untitled` |
| Notion.FirstTitlePropertyFound | packages/gwanli-core/src/lib/notion.ts:201-203 | the `find` succeeds exactly when some property is title-typed, and then returns the first such property |
| Notion.GetParentId | packages/gwanli-core/src/lib/notion.ts:214-221 | a parent id exists exactly for page parents and is that page's id; workspace roots have none |
| Notion.DatabaseChildren | packages/gwanli-core/src/lib/notion.ts:75 | every page kept is a database row |
| Notion.RegularPages | packages/gwanli-core/src/lib/notion.ts:76 | no page kept is a database row |
| Notion.PartitionIsComplete | packages/gwanli-core/src/lib/notion.ts:75-76 | the two filters split the pages: lengths add up and the multisets together are the input |
| Notion.FlattenProperties | packages/gwanli-core/src/lib/notion.ts:128-182 | the flattened entries are no more than the properties |
| Notion.FlattenKeys | packages/gwanli-core/src/lib/notion.ts:133-179 | every output key is the name of an input property |
| Notion.FlattenAbsent | packages/gwanli-core/src/lib/notion.ts:133-179 | a name not among the properties has no value |
| Notion.FlattenLookup | packages/gwanli-core/src/lib/notion.ts:136-178 | with distinct names, each property's entry is its type's rendering: first title fragment, joined rich text, select name, `", "`-joined multi-select, date start, number text, `true`/`false`, url, email, phone, `""` for other types; title and rich text with no fragments are absent |
| Notion.ExtractProperties | packages/gwanli-core/src/lib/notion.ts:128-182 | the loop builds the flattened property entries |
| Notion.CellText | packages/gwanli-core/src/lib/notion.ts:29-30 | a cell is at most 50 characters; a longer value becomes its first 47 characters plus `...`; others are unchanged |
| Notion.CreateDatabaseTable | packages/gwanli-core/src/lib/notion.ts:15-36 | no headers or no rows give exactly `## title` and `*No entries found*`; otherwise a `## title` heading and the header row followed by one row per input row |
| Notion.TableCells | packages/gwanli-core/src/lib/notion.ts:24-33 | each data row has one cell per header, the row's value for that header (or `""`) truncated to 50 characters |
| Notion.ChildDatabaseTable | packages/gwanli-core/src/lib/notion.ts:290-328 | a failed query gives the no-entries table under the bare title; an empty result gives it under `title (Database Id: id)`; headers come from the first row only; the title defaults to `Untitled Database` |
| Notion.ChildDatabaseRows | packages/gwanli-core/src/lib/notion.ts:297-320 | a non-empty query result gives the table titled `title (Database Id: id)` with the first row's keys as header and each page's flattened properties as a row, and the empty-state text exactly when the first row has no flattened property |
| SlugResolver.ChildPageLinkTarget | packages/gwanli-core/src/lib/notion.ts:330-335 | the link text defaults to `Untitled Page`; a page reachable from the workspace root links to its slug, which starts with `/`, and any other page links to the literal `undefined` |
| Notion.AssemblePage | packages/gwanli-core/src/lib/notion.ts:338-354 | a page converts exactly when its `title` property has a fragment; the markdown is the title, a blank line and the non-empty block renderings joined by blank lines; id, slug and times are copied |
| SlugTree.LastComponent | packages/gwanli-core/src/lib/tree.ts:14-17 | the last component holds no `/` |
| SlugTree.LastComponentIsTail | packages/gwanli-core/src/lib/tree.ts:14-17 | the last component is a suffix of the text starting right after a `/` (or the whole text) and is shorter when there is a `/` |
| SlugTree.ExtractSlugPrefix | packages/gwanli-core/src/lib/tree.ts:5-19 | the shortened prefix holds no `/` |
| SlugTree.ProcessedPrefixMeaning | packages/gwanli-core/src/lib/tree.ts:9-12 | `/` and prefixes whose trimmed form does not end in `/` are unchanged; a prefix ending in `/` loses exactly that one character; a prefix whose slash is followed by white space loses its last white-space character instead |
| SlugTree.ShortenedPrefixIsTail | packages/gwanli-core/src/lib/tree.ts:14-18 | the shortened prefix is the text after the last `/` of the processed prefix |
| SlugTree.TrailingSlashSurvivesTrim | packages/gwanli-core/src/lib/tree.ts:10 | a prefix ending in `/` still ends in `/` after trimming |
| SlugTree.RootPrefix | packages/gwanli-core/src/lib/tree.ts:9-18 | the prefix `/` stays `/` with an empty shortened prefix |
| SlugTree.TrailingSpaceQuirk | packages/gwanli-core/src/lib/tree.ts:9-12 | for `/a/ ` the trimmed test succeeds but the slice drops the space, leaving `/a/` |
| SlugTree.StopDepth | packages/gwanli-core/src/lib/tree.ts:29-39 | the inner loop stops before the part count and no deeper than `maxDepth` |
| SlugTree.Placed | packages/gwanli-core/src/lib/tree.ts:29-39 | a slug is placed at a key path of 1 to `maxDepth+1` keys |
| SlugTree.TreeOf | packages/gwanli-core/src/lib/tree.ts:21-22 | no slugs give the empty tree |
| SlugTree.BuildTree | packages/gwanli-core/src/lib/tree.ts:21-49 | the nested loops build the tree of the slugs in order |
| SlugTree.GraftShape | packages/gwanli-core/src/lib/tree.ts:30-45 | one assignment keeps `"..."` only at depth `maxDepth` and leaves only above it |
| SlugTree.TreeShape | packages/gwanli-core/src/lib/tree.ts:21-49 | every built tree has the depth shape: `"..."` only at key index `maxDepth`, nothing deeper |
| SlugTree.ShapeAt | packages/gwanli-core/src/lib/tree.ts:26-45 | a value found along a path has the shape of its depth |
| SlugTree.DepthBound | packages/gwanli-core/src/lib/tree.ts:26-45 | no key path is longer than `maxDepth+1`, and `"..."` is found exactly at paths of that length |
| SlugTree.GraftAt | packages/gwanli-core/src/lib/tree.ts:31-44 | after an assignment the value is found at its path |
| SlugTree.InsertPlaces | packages/gwanli-core/src/lib/tree.ts:29-45 | a slug of at most `maxDepth` parts ends in a `null` leaf at its full path; a longer one has `"..."` after its first `maxDepth` parts |
| SlugTree.GraftKeeps | packages/gwanli-core/src/lib/tree.ts:31-43 | an assignment keeps every path that does not run through the assigned key |
| SlugTree.JoinPrefix | packages/gwanli-core/src/lib/tree.ts:24 | a `/`-joined path splits into its first `k` parts, `/` and the rest |
| SlugTree.NotCutByLonger | packages/gwanli-core/src/lib/tree.ts:35-39 | a slug whose placement is a proper prefix of another's is strictly shorter |
| SlugTree.SortedKeepsAllPaths | packages/gwanli-core/src/lib/tree.ts:35-45 | when slugs arrive in non-decreasing length, every slug's placement path is present in the result |
| SlugTree.InsertPlacesSome | packages/gwanli-core/src/lib/tree.ts:29-45 | an inserted slug's placement path is present |
| SlugTree.InsertKeepsShorter | packages/gwanli-core/src/lib/tree.ts:35-43 | inserting a slug at least as long as another keeps the other's placement path |
| SlugTree.UnsortedLosesPath | packages/gwanli-core/src/lib/tree.ts:35-39 | out of length order a leaf erases an earlier subtree (`["a/b","a"]` loses `a/b`), while in order both survive |
| WorkspaceExplorer.KeepUnder | packages/gwanli-core/src/lib/workspace-explorer.ts:61 | exactly the non-empty slugs starting with the processed prefix survive, and the output is no longer than the input |
| WorkspaceExplorer.RewriteMeaning | packages/gwanli-core/src/lib/workspace-explorer.ts:62 | a slug starting with the processed prefix becomes the short prefix followed by the rest of it; a slug not containing the prefix is unchanged |
| WorkspaceExplorer.InsertByLength | packages/gwanli-core/src/lib/workspace-explorer.ts:63 | insertion adds exactly the new element |
| WorkspaceExplorer.SortByLength | packages/gwanli-core/src/lib/workspace-explorer.ts:63 | sorting is a permutation |
| WorkspaceExplorer.InsertKeepsSorted | packages/gwanli-core/src/lib/workspace-explorer.ts:63 | inserting into a length-sorted list keeps it length-sorted |
| WorkspaceExplorer.InsertWithLength | packages/gwanli-core/src/lib/workspace-explorer.ts:63 | insertion puts a new element after every element of its own length |
| WorkspaceExplorer.SortByLengthCorrect | packages/gwanli-core/src/lib/workspace-explorer.ts:63 | the sort is ordered by length, a permutation, and stable: the elements of each length keep their input order |
| WorkspaceExplorer.PrepareSlugs | packages/gwanli-core/src/lib/workspace-explorer.ts:58-63 | the list handed to `buildTree` is length-sorted and no longer than the stored slugs |
| WorkspaceExplorer.PrepareSlugsMeaning | packages/gwanli-core/src/lib/workspace-explorer.ts:60-63 | the prepared slugs are exactly the shortened prefix followed by the remainder of each non-empty slug under the processed prefix |
| WorkspaceExplorer.PrefixIsNotSegmentAware | packages/gwanli-core/src/lib/workspace-explorer.ts:58-63 | matching is by raw text: the prefix `/a` keeps `/ab`, listed as `ab` |
| WorkspaceExplorer.ListFiles | packages/gwanli-core/src/lib/workspace-explorer.ts:13-69 | a load failure is passed on unchanged; otherwise the listing shows the resolved display name and the tree of the prepared slugs |
| WorkspaceExplorer.ListFilesReadsResolvedPath | packages/gwanli-core/src/lib/workspace-explorer.ts:23-56 | the database read is the configured path of a known workspace name, or the argument itself, with a leading `~/` joined onto the home directory; the listing is named `workspace: <name>` or `database path` accordingly |
| WorkspaceExplorer.ListFilesKeepsEverySlug | packages/gwanli-core/src/lib/workspace-explorer.ts:58-69 | every prepared slug's placement path is present in the listed tree |
| Jobs.StartTimeOf | packages/gwanli-core/src/lib/jobs.ts:47-70 | a start time is reused exactly when the file reads back as a record with a non-empty start time |
| Jobs.NextRecord | packages/gwanli-core/src/lib/jobs.ts:43-56 | a written record carries the tracker id, this call's status and error, the stored start time or now, and an end time (now) exactly for END and ERROR |
| Jobs.Replay | packages/gwanli-core/src/lib/jobs.ts:43-56 | after updates the file holds a record of the job with the last update's status |
| Jobs.StartTimeNeverChanges | packages/gwanli-core/src/lib/jobs.ts:47-70 | once a start time is stored, no sequence of updates changes it |
| Jobs.FirstWriteFixesStartTime | packages/gwanli-core/src/lib/jobs.ts:47 | the first write's clock reading becomes the start time for good |
| Jobs.ReplayAppend | packages/gwanli-core/src/lib/jobs.ts:43-56 | updates compose: replaying two batches is replaying one after the other |
| Jobs.NoTerminalGuard | packages/gwanli-core/src/lib/jobs.ts:43-56 | an ERROR record can be followed by PROCESSING, which drops the error and end time |
| Jobs.JobTracker.constructor | packages/gwanli-core/src/lib/jobs.ts:22-33 | the id is the given one or the clock's milliseconds, and a START record is written before returning |
| Jobs.JobTracker.UpdateStatus | packages/gwanli-core/src/lib/jobs.ts:43-56 | the whole record is replaced by the next record, whatever the current status |
| Jobs.JobTracker.GetStatus | packages/gwanli-core/src/lib/jobs.ts:58-65 | the stored record, or none when the file is missing or not valid JSON |
| Jobs.JobTracker.GetStartTime | packages/gwanli-core/src/lib/jobs.ts:67-70 | the start time of a readable record, none when the file is unreadable or the start time is empty |
| Jobs.TrackTwoSteps | packages/gwanli-core/src/lib/jobs.ts:22-56 | a new tracker then END reads back END with the first start time, the later end time and no error |
| PageDownload.RenderSpan | scripts/download-notion-pages.ts:227-240 | a fragment without annotations or link renders as its text |
| PageDownload.RenderSpanWraps | scripts/download-notion-pages.ts:229-239 | a fragment renders as its text wrapped bold, then italic, strikethrough, code, then the link outermost |
| PageDownload.RichText | scripts/download-notion-pages.ts:226-241 | plain fragments render as their concatenated text |
| NotionTypes.DecodeBlockType | scripts/download-notion-pages.ts:165-209 | a block decodes as unsupported exactly when its type name is not one of the ten the switch handles, and then it keeps that name |
| PageDownload.OwnContentCases | scripts/download-notion-pages.ts:165-215 | headings, list items and quotes get their fixed prefix (numbered items always `1. `), code is fenced with its language, a divider is `---`, an unsupported type with text is `*[type]* text` and otherwise empty |
| PageDownload.ToDoContent | scripts/download-notion-pages.ts:190-193 | a to-do renders `[x] ` when checked and `[ ] ` otherwise, before its text |
| PageDownload.IndentEach | scripts/download-notion-pages.ts:219 | each line gets two leading spaces |
| PageDownload.IndentLines | scripts/download-notion-pages.ts:219 | indenting nested content prefixes every one of its lines with two spaces |
| PageDownload.RenderedNonEmpty | scripts/download-notion-pages.ts:141 | no kept rendering is empty |
| PageDownload.JoinEmptyIff | scripts/download-notion-pages.ts:146 | joining non-empty parts is empty exactly when there are none |
| PageDownload.RenderedEmptyIff | scripts/download-notion-pages.ts:139-144 | nothing is kept exactly when every block renders empty |
| PageDownload.BlockMarkdownShape | scripts/download-notion-pages.ts:218-223 | a block renders empty exactly when its content and children do; it starts with its own content and ends with the indented children |
| PageDownload.BlocksEmptyIff | scripts/download-notion-pages.ts:136-147 | the page renders empty exactly when every block does |
| PageDownload.BlocksMarkdownAppend | scripts/download-notion-pages.ts:139-146 | a further block adds `\n\n` and its rendering, unless either side is empty |
| PageDownload.ConvertBlock | scripts/download-notion-pages.ts:149-224 | the method renders a block as the specification function does |
| PageDownload.ConvertBlocks | scripts/download-notion-pages.ts:136-147 | the loop drops empty renderings and joins the rest with blank lines |
| PageDownload.FirstTitleIndex | scripts/download-notion-pages.ts:107-111 | the first title-typed property with fragments, or none when there is none |
| PageDownload.ExtractPageTitle | scripts/download-notion-pages.ts:105-113 | the loop returns the joined text of the first title property with fragments, else `Untitled` |
| PageDownload.FirstTitleIndexIs | scripts/download-notion-pages.ts:107-111 | the first matching property is the one chosen |
| PageDownload.DocumentLines | scripts/download-notion-pages.ts:115-134 | the document's lines are the front matter, then the content's lines, then a final empty line; values are inserted unescaped |
| PageRecords.ExtractPageData | scripts/fetch_notion_pages.ts:26-57 | a page without a `parent` fails, as the unguarded `page.parent.type` throws; otherwise id, url, archived and both times are copied, and the parent id exists exactly for page parents |
| PageRecords.ParentlessPageFails | scripts/fetch_notion_pages.ts:79-85 | a search result without a parent passes the `?.` filter, and extracting its record then fails |
| PageRecords.PropertyNamedFound | scripts/fetch_notion_pages.ts:28-29 | the property named `title` is found exactly when one exists |
| PageRecords.PageTitleMeaning | scripts/fetch_notion_pages.ts:28-36 | the title is the first fragment of the `title` property when it is a non-empty title property, else `Untitled` |
| PageRecords.PageTitleMissing | scripts/fetch_notion_pages.ts:28-36 | with no `title` property, the title is `Untitled` |
| PageRecords.TitleReadersDiffer | scripts/fetch_notion_pages.ts:28-36 | this reader and the indexer's title reader disagree: a title property not named `title`, and an empty first fragment |
| PageRecords.SearchPages | scripts/fetch_notion_pages.ts:79-87 | the search filter keeps at most the results |
| PageRecords.RowPages | scripts/fetch_notion_pages.ts:293-295 | the row filter keeps at most the results |
| PageRecords.SearchPagesMembership | scripts/fetch_notion_pages.ts:79-85 | a page is kept exactly when it is a page result whose parent is not a database |
| PageRecords.RowPagesMembership | scripts/fetch_notion_pages.ts:293-295 | a page is kept exactly when it is a page result |
| PageRecords.SearchPagesAppend | scripts/fetch_notion_pages.ts:79-87 | filtering a batch of results after another keeps their order |
| PageRecords.RowPagesAppend | scripts/fetch_notion_pages.ts:293-295 | filtering a batch of rows after another keeps their order |
| DatabaseXml.RenderRow | packages/mcp/src/lib/notion-database-transformer.ts:32-66 | a row's loop appends its `<row>` line, one `<cell>` line per property and `</row>` |
| DatabaseXml.RenderProperties | packages/mcp/src/lib/notion-database-transformer.ts:22-28 | the loop appends one `<property>` line per schema property |
| DatabaseXml.RenderRows | packages/mcp/src/lib/notion-database-transformer.ts:30-68 | the loop appends one row block per query result |
| DatabaseXml.RenderDatabase | packages/mcp/src/lib/notion-database-transformer.ts:15-75 | the method builds the listing, or the fixed error element on any failure |
| DatabaseXml.CellValueMeaning | packages/mcp/src/lib/notion-database-transformer.ts:36-54 | title and rich text use only their first fragment; absent select, date and number values give `""` |
| DatabaseXml.MultiSelectCell | packages/mcp/src/lib/notion-database-transformer.ts:45-47 | multi-select names are joined with `", "` |
| DatabaseXml.PropertyLinesShape | packages/mcp/src/lib/notion-database-transformer.ts:22-28 | one `<property>` line per schema property, in order |
| DatabaseXml.CellLinesShape | packages/mcp/src/lib/notion-database-transformer.ts:35-63 | one `<cell>` line per property of the row, in order |
| DatabaseXml.RowBlockShape | packages/mcp/src/lib/notion-database-transformer.ts:32-66 | a row block is its opening line, its cells and `</row>` |
| DatabaseXml.RowHeads | packages/mcp/src/lib/notion-database-transformer.ts:32-33 | one row opening per result |
| DatabaseXml.RowHeadsShape | packages/mcp/src/lib/notion-database-transformer.ts:32-33 | the `k`-th opening carries the row's id and index `k` |
| DatabaseXml.OpeningsAppend | packages/mcp/src/lib/notion-database-transformer.ts:30-68 | the row openings of concatenated lines are concatenated |
| DatabaseXml.NoOpeningAmongCells | packages/mcp/src/lib/notion-database-transformer.ts:63 | no cell line is a row opening |
| DatabaseXml.RowBlockOpenings | packages/mcp/src/lib/notion-database-transformer.ts:32-66 | a row block holds exactly one row opening, its own |
| DatabaseXml.RowsOpenedInOrder | packages/mcp/src/lib/notion-database-transformer.ts:30-68 | the rows appear once each, in result order, with 0-based indexes |
| DatabaseXml.ListingFrame | packages/mcp/src/lib/notion-database-transformer.ts:17-69 | a successful listing starts with the `<database id title>` line, ends with `</database>`, and is not the error element |
| DatabaseXml.DatabaseTitleMeaning | packages/mcp/src/lib/notion-database-transformer.ts:17 | the title is the first fragment's text, or `Untitled Database` when missing or empty |
| DatabaseXml.ListingLines | packages/mcp/src/lib/notion-database-transformer.ts:20-69 | the listing's lines are the modelled line list followed by `</database>` |
| TaskStorage.QuoteRoundTrip | packages/mcp/src/lib/sqlite-storage.ts:118 | reading back a quoted term, with doubled quotes undone, gives the original term |
| TaskStorage.ReadLiteralDoubled | packages/mcp/src/lib/sqlite-storage.ts:118 | the FTS5 literal reader stops exactly at the closing quote of a doubled term |
| TaskStorage.ParseStep | packages/mcp/src/lib/sqlite-storage.ts:118-119 | one quoted term and ` OR ` parse back as that term before the rest |
| TaskStorage.ParseQuoted | packages/mcp/src/lib/sqlite-storage.ts:118-119 | quoted terms joined by ` OR ` parse back to the terms |
| TaskStorage.FtsQueryRoundTrip | packages/mcp/src/lib/sqlite-storage.ts:94-119 | the query is empty exactly for a blank search; otherwise it parses back to the whitespace-separated words of the search |
| TaskStorage.Recent | packages/mcp/src/lib/sqlite-storage.ts:166-172 | at most `limit` rows (none for a negative limit); which rows, and in what order, is stated by `RecentMeaning` |
| TaskStorage.RecentMeaning | packages/mcp/src/lib/sqlite-storage.ts:163-172 | the rows returned are stored rows not excluded, newest first; every eligible row left out is older than every row returned; when fewer than the limit come back, every eligible row came back |
| TaskStorage.FallbackResults | packages/mcp/src/lib/sqlite-storage.ts:181-190 | one result per padding row |
| TaskStorage.FallbackResultsMeaning | packages/mcp/src/lib/sqlite-storage.ts:181-190 | each padding row becomes its document with similarity 0.1 |
| TaskStorage.PaddingSimilarity | packages/mcp/src/lib/sqlite-storage.ts:181-192 | padding keeps the given results first and gives every added one similarity 0.1 |
| TaskStorage.FallbackMeaning | packages/mcp/src/lib/sqlite-storage.ts:152-193 | a list already of `n` or more comes back unchanged; otherwise it is extended, with similarity 0.1, by at most `n` minus its length of stored rows whose ids are not present, newest first, leaving out only rows older than all those added |
| TaskStorage.MatchedResults | packages/mcp/src/lib/sqlite-storage.ts:129-138 | one result per ranked row |
| TaskStorage.MatchedResultsMeaning | packages/mcp/src/lib/sqlite-storage.ts:129-138 | each ranked row becomes its document with similarity `abs(rank)` |
| TaskStorage.BlankSearch | packages/mcp/src/lib/sqlite-storage.ts:94-97 | a blank query skips the engine and returns only padding rows |
| TaskStorage.MatchedSearch | packages/mcp/src/lib/sqlite-storage.ts:99-145 | matched results come first with similarity `abs(rank)` ≥ 0, and any padding after them has 0.1 |
| TaskStorage.NoMatchIsPadded | packages/mcp/src/lib/sqlite-storage.ts:140-143 | a query matching nothing still returns the stored example as padding |
| TaskStorage.TaskStore.constructor | packages/mcp/src/lib/sqlite-storage.ts:9-16 | the path defaults to `./task-examples.db`, and the store starts without a connection |
| TaskStorage.TaskStore.Initialize | packages/mcp/src/lib/sqlite-storage.ts:18-70 | opening sets the handle and keeps the stored rows |
| TaskStorage.TaskStore.AddExample | packages/mcp/src/lib/sqlite-storage.ts:72-87 | before initialisation it fails with the not-initialised message and changes nothing; a repeated id fails with the primary-key error; otherwise the row is appended and its id returned |
| TaskStorage.TaskStore.SearchSimilarExamples | packages/mcp/src/lib/sqlite-storage.ts:89-146 | before initialisation it fails with the not-initialised message; otherwise it returns the search over the stored rows |
| TaskStorage.TaskStore.Close | packages/mcp/src/lib/sqlite-storage.ts:200-205 | closing clears the handle and keeps the rows, so closing twice is the same as once |
| TaskStorage.CloseThenReopen | packages/mcp/src/lib/sqlite-storage.ts:72-205 | a search after close fails; after reopening it sees the example added before |
| Strings.TrimEmptyIffAllSpace | packages/mcp/src/lib/sqlite-storage.ts:94 | a string trims to empty exactly when it is all whitespace |
| Strings.Words | packages/mcp/src/lib/sqlite-storage.ts:115-117 | the terms are non-empty and hold no whitespace |
| Strings.WordsEmptyIffBlank | packages/mcp/src/lib/sqlite-storage.ts:115-117 | there are no terms exactly when the query is all whitespace |
| Strings.NatToString | packages/gwanli-core/src/lib/notion.ts:251 | a counter renders as a non-empty string of digits |
| Strings.ParseNatToString | packages/gwanli-core/src/lib/notion.ts:251 | reading a rendered counter back gives the counter |
| Strings.NatToStringInjective | packages/gwanli-core/src/lib/notion.ts:251 | distinct counters render differently |
| Strings.ReplaceLeading | packages/gwanli-core/src/lib/workspace-explorer.ts:62 | replacing the prefix a string starts with, by text without `$`, puts that text in its place |
| Strings.SubstituteLiteral | packages/gwanli-core/src/lib/workspace-explorer.ts:62 | a replacement without `$` is inserted literally |
| CoreEnv.IssueLines | packages/core/src/env.ts:64-88 | one issue line per rejected key, none exactly when every key is non-empty |
| CoreEnv.ChromaKeysFilled | packages/core/src/env.ts:6-16 | the ChromaDB schema accepts exactly when its five variables are non-empty |
| CoreEnv.ValidateEnvChoice | packages/core/src/env.ts:44-89 | ChromaDB exactly when the Anthropic key and all four ChromaDB variables are non-empty; SQLite exactly when the key is non-empty and the ChromaDB set is incomplete; failure exactly when the key is missing or empty |
| CoreEnv.FailureMessage | packages/core/src/env.ts:64-88 | a failure message starts `Environment validation failed` and lists issues for both schemas |
| CoreEnv.SqlitePath | packages/core/src/env.ts:19-61 | a SQLite configuration holds the key and a supplied SQLITE_PATH, or `<home>/.vibeall/db.sqlite` |
| CoreEnv.ChromaConfigKeys | packages/core/src/env.ts:11-52 | a ChromaDB configuration holds exactly the five schema keys with their non-empty values |
| CoreEnv.GuardsExclusive | packages/core/src/env.ts:94-103 | on every validated configuration exactly one guard holds, the one of its kind |
| CoreEnv.GuardsNeedDroppedKeys | packages/core/src/env.ts:94-103 | on a raw environment both guards can hold; on its parsed configuration only one does |
| McpEnv.Issues | packages/mcp/src/lib/env.ts:4-13 | the issues name schema keys, at most one per key |
| McpEnv.IssuesEmptyIff | packages/mcp/src/lib/env.ts:4-13 | a schema parses exactly when it reports no issue |
| McpEnv.ValidateEnvChoice | packages/mcp/src/lib/env.ts:32-55 | Chroma exactly when the URL passes the URL check and the collection and key are non-empty; SQLite exactly when Chroma fails and the path and key are non-empty; failure otherwise |
| McpEnv.FailureMessage | packages/mcp/src/lib/env.ts:44-52 | a failure starts with the fixed header, carries the issues of both schemas, Chroma's first, and ends with the SQLite error |
| McpEnv.GuardsExclusive | packages/mcp/src/lib/env.ts:23-29 | on every validated configuration exactly one guard holds, the one of its kind |

## Left out

- Network fetching, pagination loops, the concurrency cap and the retry backoff of the Notion
  client. Fetched pages, databases, blocks and query rows are inputs.
- `notion-to-md` and `markdown-table`. The table is modelled as its cell data, and the page's
  block renderings are an input to the page assembly.
- SQL DDL, the FTS5 triggers, and the engine's matching and ranking. The engine is a parameter.
- Logging, the process environment as a global (it is a map parameter), and the `treeify`
  rendering of the tree (the listing holds the tree itself).
- Lowercasing covers ASCII letters only. Unicode case mapping is not modelled.
- String lengths are counted in characters, not UTF-16 code units. This matters for the
  50-character cell cut and the length sort on non-BMP text.
- Objects are maps or association lists. Prototype keys such as `constructor` are not
  modelled. `extract_properties` yields its entries in property order, as a list.
- `buildTree` mutates nested objects through a moving pointer. The model rebuilds the
  nested map functionally at each assignment, so aliasing is not modelled.
- `path.join` and its normalisation are a parameter of `ListFiles`.
  `DefaultSqlitePath` is plain concatenation with `/`.
- Default arguments of `listFiles` (`prefix = "/"`, `maxDepth = 2`) and of
  `searchSimilarExamples` (`nExamples = 3`) are not modelled. The model always passes them.
- CoreEnv.ValidateEnv: the default argument `process.env` is not modelled; the environment
  is always passed.
- The zod error texts are partial. Only the per-key messages the code sets are modelled.
  - `render` stands for the text of a thrown ZodError in the MCP validator.
  - URL validity is the parameter `isUrl`.
- `getJobId`, `getJobDir`, the job directory creation and the logging methods of
  `JobTracker`. The two clock reads in one `updateStatus` are a single `now`.
- JSON that parses to something other than a job record is treated as a record or as
  garbled; the model has no third case.
- `JSON.stringify` and `number.toString` are parameters or carried text, not serialisers.
- The JSON `type` tag of a block is decoded into a block-type value; unknown tags keep their
  name.
- A children fetch that fails is treated as a block without children. Children are given
  with the block.
- WorkspaceExplorer.PrepareSlugsMeaning: states the rewrite only for shortened prefixes
  without `$`, because a `$` in a replacement string is a substitution pattern. The general
  case is `RewriteAll` with `ReplaceFirst`.
- WorkspaceExplorer.RewriteMeaning: states the rewrite only for short prefixes without `$`,
  for the same reason as `PrepareSlugsMeaning`.
- Notion.AssemblePage: a first title fragment without `plain_text` gives the title
  `undefined` in the source. The model reads an omitted `plain_text` as the empty string.
- PageRecords.ExtractPageData: a first `title` fragment without `plain_text` makes the
  source's schema `parse` throw. The model reads it as the empty string and returns a record.
- TaskStorage.Recent: rows tied on `created_at` within one second are ordered by reverse
  insertion. SQLite leaves their order unspecified.
- `generateId`'s clock and randomness are the parameter `freshId`. `validateExample`'s
  schema check is the type of `TaskExample`.
- `getFallbackResults` has a `!db` branch, which the search path never reaches. It is not
  modelled.
- A test in packages/mcp/src/lib/sqlite-storage.test.ts:78-89 expects no results for an
  unmatched query. The code pads the list instead, and the model follows the code
  (`TaskStorage.NoMatchIsPadded`).
- SlugResolver.GenerateSlugs requires distinct item ids. The source does not check this, and
  with a repeated id its recursion need not end.
