/** The recursive directory scan (`processDirectory`): a listing becomes a
    sequence of sidebar items, a Markdown page becoming a leaf link and a
    subdirectory with at least one page below it becoming a group. */
module Sidebar {
  import opened Wrappers
  import opened Strings
  import opened FileTree

  /** One sidebar item as the site generator consumes it: `{text, link}` or
      `{text, collapsed, items}`. */
  datatype Item =
    | Leaf(text: string, link: string)
    | Group(text: string, collapsed: bool, items: seq<Item>)

  /** Why `processDirectory` throws: `readdirSync` fails on its path. */
  datatype ScanError = ListingFailed

  const MarkdownExt: string := ".md"
  const IndexPage: string := "index.md"

  /** A file name that becomes a leaf: a Markdown file other than the index. */
  predicate IsPage(name: string) {
    EndsWith(name, MarkdownExt) && name != IndexPage
  }

  /** The leaf text of a page: `entry.replace('.md', '')`. */
  function DisplayName(name: string): string {
    RemoveFirst(name, MarkdownExt)
  }

  /** The URL prefix under which a subdirectory is scanned. */
  function SubUrl(baseUrl: string, name: string): (u: string)
    ensures |u| > |baseUrl| && u[..|baseUrl|] == baseUrl
  {
    baseUrl + name + "/"
  }

  /** The entry has a page somewhere below it that the scan can reach: it is
      a page itself, or a listable directory with such an entry in it. */
  predicate HasPage(e: Entry)
    decreases e
  {
    match e
    case File(name) => IsPage(name)
    case Dir(_, children) => exists i :: 0 <= i < |children| && HasPage(children[i])
    case _ => false
  }

  /** The items one directory entry contributes (the body of the `forEach`):
      a leaf for a page, a group for a subdirectory whose scan is non-empty,
      nothing otherwise. A failure inside is caught, so it contributes nothing. */
  function ProcessEntry(e: Entry, baseUrl: string, level: nat): (r: seq<Item>)
    ensures |r| <= 1
    ensures r != [] <==> HasPage(e)
    ensures r != [] && e.File? ==>
      r[0] == Leaf(DisplayName(e.name), baseUrl + DisplayName(e.name))
    ensures r != [] && e.Dir? ==>
      && r[0].Group?
      && r[0].text == e.name
      && r[0].collapsed == (level > 0)
      && r[0].items == ScanEntries(e.children, SubUrl(baseUrl, e.name), level + 1)
    decreases e
  {
    match e
    case File(name) =>
      if IsPage(name) then
        var text := DisplayName(name);
        [Leaf(text, baseUrl + text)]
      else []
    case Dir(name, children) =>
      var sub := ScanEntries(children, SubUrl(baseUrl, name), level + 1);
      if |sub| > 0 then [Group(name, level > 0, sub)] else []
    case _ => []
  }

  /** The items of a whole listing, entry by entry in enumeration order. */
  function ScanEntries(es: seq<Entry>, baseUrl: string, level: nat): (r: seq<Item>)
    ensures |r| <= |es|
    ensures r == [] <==> forall i :: 0 <= i < |es| ==> !HasPage(es[i])
    decreases es
  {
    if es == [] then []
    else ProcessEntry(es[0], baseUrl, level) + ScanEntries(es[1..], baseUrl, level)
  }

  /** `processDirectory(path, baseUrl, level)` for the entry found at `path`
      (`None` when nothing is there). A missing path gives no items; a path
      whose listing fails throws. */
  function ProcessDirectory(at: Option<Entry>, baseUrl: string, level: nat)
    : (r: Result<seq<Item>, ScanError>)
    ensures at.None? || !Exists(at.value) ==> r == Ok([])
    ensures r.Err? <==> at.Some? && Exists(at.value) && !at.value.Dir?
    ensures at.Some? && at.value.Dir? ==> r == Ok(ScanEntries(at.value.children, baseUrl, level))
    ensures r.Ok? && at.Some? && at.value.Dir? ==>
      (r.value == [] <==> forall i :: 0 <= i < |at.value.children| ==> !HasPage(at.value.children[i]))
  {
    match at
    case None => Ok([])
    case Some(e) =>
      if !Exists(e) then Ok([])
      else if e.Dir? then Ok(ScanEntries(e.children, baseUrl, level))
      else Err(ListingFailed)
  }
}
