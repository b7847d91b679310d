/** Worked examples of the sidebar builder on small directory trees, over
    arbitrary names. */
module SidebarExamples {
  import opened Wrappers
  import opened FileTree
  import opened Sidebar
  import opened SidebarConfig

  function PageLeaf(url: string, name: string): Item {
    Leaf(DisplayName(name), url + DisplayName(name))
  }

  /** A category holding `index.md` and two pages: the home link, then the two
      pages in listing order; the index page is not a leaf of its own. */
  lemma IndexAndTwoPages(c: string, a: string, b: string)
    requires IsPage(a) && IsPage(b)
    ensures CategoryGroup([Dir(c, [File(IndexPage), File(a), File(b)])], c)
      == Some(Group(c, false, [HomeLeaf(c), PageLeaf(Route(c), a), PageLeaf(Route(c), b)]))
  {
    var es := [File(IndexPage), File(a), File(b)];
    var u := Route(c);
    assert es[1..][1..] == [File(b)];
    assert ScanEntries(es[1..][1..], u, 0) == [PageLeaf(u, b)] + ScanEntries([], u, 0);
    assert ScanEntries(es[1..][1..], u, 0) == [PageLeaf(u, b)];
    assert ScanEntries(es[1..], u, 0) == [PageLeaf(u, a)] + [PageLeaf(u, b)];
    assert ScanEntries(es, u, 0) == [] + ScanEntries(es[1..], u, 0);
    assert ScanEntries(es, u, 0) == [PageLeaf(u, a), PageLeaf(u, b)];
    assert Find(es, IndexPage) == Some(File(IndexPage));
    assert ProcessDirectory(Some(Dir(c, es)), u, 0) == Ok([PageLeaf(u, a), PageLeaf(u, b)]);
    assert HasIndex(es);
    assert Find([Dir(c, es)], c) == Some(Dir(c, es));
    assert [HomeLeaf(c)] + [PageLeaf(u, a), PageLeaf(u, b)] == [HomeLeaf(c), PageLeaf(u, a), PageLeaf(u, b)];
  }

  /** `root/sub/page` without any index: the subdirectory of the category
      root is scanned at level 0 and so is NOT collapsed. */
  lemma NestedPageDirectlyUnderRoot(root: string, sub: string, page: string)
    requires IsPage(page) && sub != IndexPage
    ensures CategoryGroup([Dir(root, [Dir(sub, [File(page)])])], root)
      == Some(Group(root, false, [Group(sub, false, [PageLeaf(SubUrl(Route(root), sub), page)])]))
  {
    var u := Route(root);
    var inner := ScanEntries([File(page)], SubUrl(u, sub), 1);
    assert inner == [PageLeaf(SubUrl(u, sub), page)] + ScanEntries([], SubUrl(u, sub), 1);
    assert inner == [PageLeaf(SubUrl(u, sub), page)];
    assert ScanEntries([Dir(sub, [File(page)])], u, 0) == [Group(sub, false, inner)] + ScanEntries([], u, 0);
    assert ScanEntries([Dir(sub, [File(page)])], u, 0) == [Group(sub, false, inner)];
    assert Find([Dir(sub, [File(page)])], IndexPage) == None;
  }

  /** One level further down the group is collapsed. */
  lemma DeeperDirectoryCollapsed(url: string, sub: string, deep: string, page: string)
    requires IsPage(page)
    ensures ScanEntries([Dir(sub, [Dir(deep, [File(page)])])], url, 0)
      == [Group(sub, false, [Group(deep, true, [PageLeaf(SubUrl(SubUrl(url, sub), deep), page)])])]
  {
    var u1 := SubUrl(url, sub);
    var u2 := SubUrl(u1, deep);
    var leaf := ScanEntries([File(page)], u2, 2);
    assert leaf == [PageLeaf(u2, page)] + ScanEntries([], u2, 2);
    var mid := ScanEntries([Dir(deep, [File(page)])], u1, 1);
    assert mid == [Group(deep, true, leaf)] + ScanEntries([], u1, 1);
    assert leaf == [PageLeaf(u2, page)];
    assert mid == [Group(deep, true, [PageLeaf(u2, page)])];
    assert ScanEntries([Dir(sub, [Dir(deep, [File(page)])])], url, 0)
      == [Group(sub, false, mid)] + ScanEntries([], url, 0);
  }

  /** A directory holding only non-page files is pruned from its parent, and
      a failing sibling does not stop the page next to it. */
  lemma PruningAndFailures(url: string, d: string, other: string, broken: string, page: string)
    requires !IsPage(other) && IsPage(page)
    ensures ScanEntries([Dir(d, [File(other), File(IndexPage)]), Unstatable(broken), File(page)], url, 0)
      == [PageLeaf(url, page)]
  {
    var es := [Dir(d, [File(other), File(IndexPage)]), Unstatable(broken), File(page)];
    assert !HasPage(es[0]) by {
      var ch := es[0].children;
      assert !HasPage(ch[0]) && !HasPage(ch[1]);
    }
    assert es[1..][1..] == [File(page)];
    assert ScanEntries(es[1..][1..], url, 0) == [PageLeaf(url, page)] + ScanEntries([], url, 0);
  }

  /** A missing category gets no key; an existing one gets its group even
      when it holds no page at all. */
  lemma MissingAndEmptyCategories(gone: string, empty: string)
    requires gone != empty
    ensures GenerateSidebar([gone, empty], [Dir(empty, [])])
      == map[Route(empty) := [Group(empty, false, [])]]
  {
    var docs := [Dir(empty, [])];
    assert Find(docs, gone) == None;
    assert CategoryGroup(docs, gone) == None;
    assert Find(docs, empty) == Some(Dir(empty, []));
    assert ScanEntries([], Route(empty), 0) == [];
    assert !HasIndex([]);
    assert CategoryGroup(docs, empty) == Some(Group(empty, false, []));
    assert [gone, empty][..1] == [gone];
    assert [gone][..0] == [];
    assert GenerateSidebar([], docs) == map[];
    assert GenerateSidebar([gone], docs) == map[];
  }
}
