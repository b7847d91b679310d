# Sidebar builder of a VitePress documentation site

The site's configuration (`docs/.vitepress/config.js`) builds its sidebar by
walking the content directories. For each root category:

- every Markdown page becomes a link (`{text, link}`);
- every subdirectory with at least one page below it becomes a group
  (`{text, collapsed, items}`);
- the category's own `index.md` becomes a "home" link (`<category>首页`) at
  the top of the category's single top-level group.

The result is a map from each category's URL prefix `/<category>/` to that group.

This project models that builder in Dafny as pure functions over a finite,
immutable filesystem tree and proves the properties below. Because every
function is pure, rebuilding the sidebar from an unchanged tree gives the same
result.

- `Wrappers`: `Option` and `Result`.
- `Strings`: `endsWith` and `String.prototype.replace` with a string pattern.
  `replace` cuts out only the first occurrence.
- `FileTree`: a directory entry is one of the following:
  - a regular file;
  - a directory with its listing in enumeration order;
  - a special file (neither a regular file nor a directory);
  - a directory whose listing throws;
  - an entry whose `statSync` throws.

  `existsSync` is false only for the last kind.
- `Sidebar`: `processDirectory` is split into three functions:
  - `ProcessEntry`: the body of the `forEach`, one entry, with its `try`/`catch`;
  - `ScanEntries`: the whole listing;
  - `ProcessDirectory`: the existence check and the listing, which can throw.
- `SidebarProps`: properties of the scan:
  - order and one item per contributing entry;
  - failing entries are skipped;
  - the shape of the items: no empty groups, the collapse rule, and each link
    is its directory URL followed by its text;
  - the leaf links are exactly the URLs of the reachable pages.
- `SidebarConfig`: `generateSidebar`. The category list is a parameter. The
  docs directory is given as its listing.
- `SidebarExamples`: small directory trees worked through the builder, over
  arbitrary names.

Three rules of the code are easy to misread, and the model keeps them exactly:

- **Collapse flag.** A group's `collapsed` flag is `level > 0`, where `level`
  belongs to the scan that finds the subdirectory (`config.js:30`, `35`).
  `generateSidebar` scans each category root at level 0 (`config.js:80`), and
  the top-level category group itself is always expanded (`config.js:87`).
  The comment at `config.js:35` reads "二级及以上目录默认折叠" (second-level and
  deeper directories collapsed by default). The code collapses only
  directories two or more levels below the category: a subdirectory directly
  under the category root is expanded.
  `SidebarExamples.NestedPageDirectlyUnderRoot` and
  `SidebarExamples.DeeperDirectoryCollapsed` show both cases.
- **Display name.** `entry.replace('.md', '')` at `config.js:41` removes the
  first occurrence of `.md`, not the extension, so `a.md.b.md` is shown as
  `a.b.md`.
- **Failed nested listing.** `readdirSync` at `config.js:20` lies outside the
  `try`. When a nested directory's listing throws, the exception reaches the
  `catch` of the enclosing entry (`config.js:25-49`), and that subdirectory is
  skipped as a whole while its siblings are still processed.

## Model

| member | source | states |
|---|---|---|
| Strings.FirstIndexFrom | docs/.vitepress/config.js:41 | the index found is an occurrence of the pattern with none before it; no index means no occurrence at all |
| Strings.RemoveFirstAt | docs/.vitepress/config.js:41 | `replace('.md', '')` cuts the pattern out at its leftmost occurrence, shortens the name by the pattern's length, and putting the pattern back at that index restores the name |
| Strings.RemoveFirstOfUniqueSuffix | docs/.vitepress/config.js:39-41 | for a name ending in `.md` with no earlier `.md`, the display name is the name without its extension |
| Strings.RemoveFirstKeepsLaterOccurrence | docs/.vitepress/config.js:41 | `a.md.b.md` is displayed as `a.b.md`, not as `a.md.b` |
| FileTree.Find | docs/.vitepress/config.js:61-63 | looking a name up in a listing succeeds exactly when some entry carries that name, and returns the first entry of the listing with that name |
| Sidebar.ProcessEntry | docs/.vitepress/config.js:25-49 | an entry yields at most one item, and one exactly when a page is reachable below it. A page file becomes a leaf with text = name minus its first `.md` and link = base URL + text. A subdirectory becomes a group named after it, collapsed iff `level > 0`, holding the scan of its listing under `baseUrl + name + "/"` at `level + 1`. Special files, failed stats and failed nested listings yield nothing |
| Sidebar.ScanEntries | docs/.vitepress/config.js:20-22 | a listing yields at most one item per entry, and no item at all exactly when no entry has a reachable page |
| Sidebar.ProcessDirectory | docs/.vitepress/config.js:13-22 | when `existsSync` is false (nothing at the path, or stat fails) the result is the empty list. Listing throws exactly when the path exists but is not a listable directory. A listable directory yields the scan of its listing, which is empty exactly when no page is reachable in it |
| SidebarProps.ScanAppend | docs/.vitepress/config.js:20-22 | the scan of two concatenated listings is the concatenation of their scans, so items keep the relative order of their entries |
| SidebarProps.ScanFollowsListing | docs/.vitepress/config.js:22-50 | there are as many items as contributing entries, and the i-th item is what the i-th contributing entry yields; nothing is sorted |
| SidebarProps.ScanSkipsFailingEntry | docs/.vitepress/config.js:25-49 | an entry whose stat or nested listing throws is skipped on its own: the scan equals the scan of the listing with that entry removed |
| SidebarProps.ScanIgnoresFailures | docs/.vitepress/config.js:25-49 | removing every failing entry at every depth (`Prune`, whose result has no failing entry at any depth and which leaves a failure-free tree as it is) leaves the scan unchanged |
| SidebarProps.EntryIgnoresFailures | docs/.vitepress/config.js:28-38 | a non-failing entry yields the same items after failing entries are removed below it |
| SidebarProps.SubdirectoryScan | docs/.vitepress/config.js:28-38 | a subdirectory is scanned with the extended URL and `level + 1`. A throw from that nested scan yields nothing. An empty result yields nothing. Otherwise the entry yields one group with the nested items |
| SidebarProps.ScanWellShaped | docs/.vitepress/config.js:28-45 | every scan's items are well-shaped: groups are never empty, groups are collapsed iff their scan level is above 0 (so a category's direct subdirectories are expanded and deeper ones collapsed), and every leaf links to its directory's URL followed by its text |
| SidebarProps.EntryWellShaped | docs/.vitepress/config.js:28-45 | the items of a single entry are well-shaped in the same sense |
| SidebarProps.ScanLinksArePages | docs/.vitepress/config.js:30-45 | the leaf links of a scan, depth-first, are exactly the URLs of the pages reachable through listable directories, in listing order; each URL is built from the page's directory path and display name |
| SidebarProps.EntryLinksArePages | docs/.vitepress/config.js:30-45 | the leaf links of one entry are the URLs of the pages reachable below it |
| SidebarProps.PageUrlUnder | docs/.vitepress/config.js:30-44 | the URL of a page below a base URL starts with that base URL |
| SidebarProps.LinksUnderBase | docs/.vitepress/config.js:41-44 | every leaf link anywhere in a scan has the scan's base URL as a prefix |
| SidebarConfig.Route | docs/.vitepress/config.js:75 | a category's URL prefix is its name between two slashes |
| SidebarConfig.RouteInjective | docs/.vitepress/config.js:84 | two categories with the same sidebar key are the same category |
| SidebarConfig.HomeNotScanned | docs/.vitepress/config.js:72-81 | the scan of a category never starts with the home link itself |
| SidebarConfig.CategoryGroup | docs/.vitepress/config.js:60-96 | a category gets a group exactly when its directory exists and can be listed. That group is named after the category and not collapsed. Its items are the category scan, preceded by exactly one extra item, the home link `(dir + 首页, /dir/)`, iff `index.md` exists at the category root |
| SidebarConfig.GenerateSidebar | docs/.vitepress/config.js:56-100 | for every listed category, the key `/dir/` is present exactly when that category gets a group, and then maps to exactly that one group. Every key belongs to a listed category |
| SidebarExamples.IndexAndTwoPages | docs/.vitepress/config.js:72-81 | a category with `index.md` and two pages yields the home link and the two page links, in listing order; the index is not a leaf |
| SidebarExamples.NestedPageDirectlyUnderRoot | docs/.vitepress/config.js:30-37 | `root/sub/page`: the group `sub` is not collapsed |
| SidebarExamples.DeeperDirectoryCollapsed | docs/.vitepress/config.js:30-37 | a directory two levels below the category root is collapsed |
| SidebarExamples.PruningAndFailures | docs/.vitepress/config.js:25-49 | a subdirectory with no page is pruned, and a failing sibling does not stop the page beside it |
| SidebarExamples.MissingAndEmptyCategories | docs/.vitepress/config.js:63-90 | a missing category gets no key; an existing category with no pages still gets its (empty) group |

## Left out

- Real filesystem calls (`readdirSync`, `statSync`, `existsSync`) and the
  resolution of `__dirname`. The filesystem is an abstract finite tree given as
  a parameter, and the docs directory is its listing.
- Symbolic-link cycles. The inductive tree cannot express them, so the scan
  always terminates in the model. The code itself has no cycle guard.
- Category names are single directory names looked up in the docs listing.
  `path.join` normalisation of names such as `""`, `.`, `..` or names
  containing `/` is not modelled.
- SidebarConfig.HasIndex: name lookups (`FileTree.Find`, for the category
  directory and for `index.md`) use exact string equality. This assumes a
  case-sensitive filesystem without Unicode normalisation, as on Linux. On a
  case-insensitive filesystem (the macOS and Windows defaults),
  `existsSync(join(dirPath, 'index.md'))` is also true for a root holding
  `Index.md`, so the code adds the home link. That file also passes the
  case-sensitive `entry !== 'index.md'` test, so it appears as the leaf
  `Index` as well. The model gives only the leaf, with no home link.
- Race conditions: the filesystem does not change during a scan. A nested
  directory that existed when stat'ed therefore still exists when it is listed.
- Logging (`console.warn`, `console.log`, `console.error`): diagnostics only.
- The static `defineConfig` object: navigation, theme strings, search
  translations, head tags, server and build settings. It is inert data for
  the site generator.
- The KaTeX Markdown plugin hook: a thin wrapper over an external library.
- The fixed category list `['学习', '工作', '兴趣']`: it is the
  `categories` parameter of `GenerateSidebar`.
- Error messages: a caught error carries only its kind (`ListingFailed`),
  never the text it would log.
