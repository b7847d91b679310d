/** `generateSidebar`: one top-level group per root category, keyed by the
    category's URL prefix. The category names are a parameter; the docs
    directory is given as its listing. */
module SidebarConfig {
  import opened Wrappers
  import opened FileTree
  import opened Sidebar
  import opened SidebarProps

  /** Appended to a category name to label its home link ("home page"). */
  const HomeSuffix: string := "首页"

  /** The URL prefix of a category, `/${dir}/`; also the sidebar key. */
  function Route(category: string): (u: string)
    ensures |u| == |category| + 2
    ensures u[0] == '/' && u[|u| - 1] == '/' && u[1..|u| - 1] == category
  {
    "/" + category + "/"
  }

  /** Distinct categories never share a sidebar key. */
  lemma RouteInjective(c: string, d: string)
    requires Route(c) == Route(d)
    ensures c == d
  {
    assert c == Route(c)[1..|Route(c)| - 1];
  }

  /** The category's home link, `{ text: dir + '首页', link: '/dir/' }`. */
  function HomeLeaf(category: string): Item {
    Leaf(category + HomeSuffix, Route(category))
  }

  /** `existsSync(join(dirPath, 'index.md'))` for a directory with this listing. */
  predicate HasIndex(children: seq<Entry>) {
    Find(children, IndexPage).Some? && Exists(Find(children, IndexPage).value)
  }

  /** The category can be listed: it is a directory whose listing succeeds. */
  predicate Listable(docs: seq<Entry>, category: string) {
    Find(docs, category).Some? && Find(docs, category).value.Dir?
  }

  /** The single top-level group of one category, or `None` when the category
      is omitted: its directory is missing, or scanning it throws and the
      error is caught at the category boundary. */
  function CategoryGroup(docs: seq<Entry>, category: string): (r: Option<Item>)
    ensures r.Some? <==> Listable(docs, category)
    ensures r.Some? ==> r.value.Group? && r.value.text == category && !r.value.collapsed
    ensures r.Some? ==>
      var root := Find(docs, category).value;
      var scan := ScanEntries(root.children, Route(category), 0);
      var items := r.value.items;
      && |items| == |scan| + (if HasIndex(root.children) then 1 else 0)
      && items[|items| - |scan|..] == scan
      && (items != [] && items[0] == HomeLeaf(category) <==> HasIndex(root.children))
  {
    match Find(docs, category)
    case None => None
    case Some(root) =>
      if !Exists(root) then None
      else
        match ProcessDirectory(Some(root), Route(category), 0)
        case Err(_) => None
        case Ok(scan) =>
          var home := if root.Dir? && HasIndex(root.children) then [HomeLeaf(category)] else [];
          HomeNotScanned(root.children, category);
          Some(Group(category, false, home + scan))
  }

  /** The home link never comes out of the scan itself: a scanned leaf links
      to the category prefix followed by its text, so a leaf with the home
      text links strictly below the prefix. */
  lemma HomeNotScanned(children: seq<Entry>, category: string)
    ensures var scan := ScanEntries(children, Route(category), 0);
      scan == [] || scan[0] != HomeLeaf(category)
  {
    var scan := ScanEntries(children, Route(category), 0);
    ScanWellShaped(children, Route(category), 0);
    if scan != [] && scan[0].Leaf? && scan[0].text == category + HomeSuffix {
      assert ItemShaped(scan[0], Route(category), 0);
      assert |scan[0].link| > |Route(category)|;
    }
  }

  /** The sidebar map after processing the categories in order. A category
      listed twice is written twice with the same value. */
  function GenerateSidebar(categories: seq<string>, docs: seq<Entry>): (sidebar: map<string, seq<Item>>)
    ensures forall c :: c in categories ==>
      (Route(c) in sidebar <==> CategoryGroup(docs, c).Some?)
    ensures forall c :: c in categories && Route(c) in sidebar ==>
      sidebar[Route(c)] == [CategoryGroup(docs, c).value]
    ensures forall k :: k in sidebar ==> exists c :: c in categories && Route(c) == k
    decreases |categories|
  {
    if categories == [] then map[]
    else
      var earlier := categories[..|categories| - 1];
      var sidebar := GenerateSidebar(earlier, docs);
      var c := categories[|categories| - 1];
      assert categories == earlier + [c];
      RoutesDistinct(c);
      match CategoryGroup(docs, c)
      case None => sidebar
      case Some(g) => sidebar[Route(c) := [g]]
  }

  lemma RoutesDistinct(c: string)
    ensures forall d :: Route(d) == Route(c) ==> d == c
  {
    forall d | Route(d) == Route(c) ensures d == c {
      RouteInjective(d, c);
    }
  }
}
