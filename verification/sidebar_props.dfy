/** Properties of the directory scan: order, error tolerance, pruning, the
    shape of the produced items and the links they carry. */
module SidebarProps {
  import opened Wrappers
  import opened FileTree
  import opened Sidebar

  /* ---------------- Order ---------------- */

  /** Scanning a listing split in two gives the two scans one after the other:
      items keep the relative order of the entries that produce them. */
  lemma {:induction false} ScanAppend(a: seq<Entry>, b: seq<Entry>, baseUrl: string, level: nat)
    ensures ScanEntries(a + b, baseUrl, level) == ScanEntries(a, baseUrl, level) + ScanEntries(b, baseUrl, level)
    decreases |a|
  {
    if a == [] {
      assert a + b == b;
    } else {
      assert (a + b)[0] == a[0];
      assert (a + b)[1..] == a[1..] + b;
      ScanAppend(a[1..], b, baseUrl, level);
    }
  }

  /** The entries of a listing that contribute an item, in listing order. */
  function Contributing(es: seq<Entry>): (r: seq<Entry>)
    ensures |r| <= |es|
    ensures forall i :: 0 <= i < |r| ==> HasPage(r[i]) && r[i] in es
  {
    if es == [] then []
    else if HasPage(es[0]) then [es[0]] + Contributing(es[1..])
    else Contributing(es[1..])
  }

  /** One item per contributing entry, in the same order: the i-th item is
      what the i-th contributing entry produces. Nothing is sorted. */
  lemma {:induction false} ScanFollowsListing(es: seq<Entry>, baseUrl: string, level: nat)
    ensures |ScanEntries(es, baseUrl, level)| == |Contributing(es)|
    ensures forall i :: 0 <= i < |Contributing(es)| ==>
      ProcessEntry(Contributing(es)[i], baseUrl, level) == [ScanEntries(es, baseUrl, level)[i]]
    decreases |es|
  {
    if es != [] {
      ScanFollowsListing(es[1..], baseUrl, level);
    }
  }

  /* ---------------- Error tolerance ---------------- */

  /** A failing entry is skipped on its own: the scan equals the scan of the
      listing without it, so every sibling is still processed. */
  lemma ScanSkipsFailingEntry(a: seq<Entry>, e: Entry, b: seq<Entry>, baseUrl: string, level: nat)
    requires Fails(e)
    ensures ScanEntries(a + [e] + b, baseUrl, level) == ScanEntries(a + b, baseUrl, level)
  {
    assert ScanEntries([e], baseUrl, level) == ProcessEntry(e, baseUrl, level) + ScanEntries([], baseUrl, level);
    var sa, sb := ScanEntries(a, baseUrl, level), ScanEntries(b, baseUrl, level);
    ScanAppend(a + [e], b, baseUrl, level);
    ScanAppend(a, [e], baseUrl, level);
    ScanAppend(a, b, baseUrl, level);
    assert ScanEntries(a + [e], baseUrl, level) == sa;
  }

  /** Removing every failing entry, at every depth, changes nothing. */
  lemma {:induction false} ScanIgnoresFailures(es: seq<Entry>, baseUrl: string, level: nat)
    ensures ScanEntries(Prune(es), baseUrl, level) == ScanEntries(es, baseUrl, level)
    decreases es
  {
    if es != [] {
      ScanIgnoresFailures(es[1..], baseUrl, level);
      if !Fails(es[0]) {
        EntryIgnoresFailures(es[0], baseUrl, level);
        assert Prune(es) == [PruneEntry(es[0])] + Prune(es[1..]);
        ScanAppend([PruneEntry(es[0])], Prune(es[1..]), baseUrl, level);
      }
    }
  }

  lemma {:induction false} EntryIgnoresFailures(e: Entry, baseUrl: string, level: nat)
    requires !Fails(e)
    ensures ProcessEntry(PruneEntry(e), baseUrl, level) == ProcessEntry(e, baseUrl, level)
    decreases e
  {
    if e.Dir? {
      ScanIgnoresFailures(e.children, SubUrl(baseUrl, e.name), level + 1);
    }
  }

  /** A subdirectory is handled by a nested `processDirectory` whose throw is
      caught by the enclosing entry: a failed listing contributes nothing, an
      empty scan contributes nothing, otherwise one group. */
  lemma SubdirectoryScan(e: Entry, baseUrl: string, level: nat)
    requires e.Dir? || e.Unlistable?
    ensures ProcessDirectory(Some(e), SubUrl(baseUrl, e.name), level + 1).Err? ==>
      ProcessEntry(e, baseUrl, level) == []
    ensures ProcessDirectory(Some(e), SubUrl(baseUrl, e.name), level + 1).Ok? ==>
      var sub := ProcessDirectory(Some(e), SubUrl(baseUrl, e.name), level + 1).value;
      ProcessEntry(e, baseUrl, level) == if sub == [] then [] else [Group(e.name, level > 0, sub)]
  {
  }

  /* ---------------- Shape of the items ---------------- */

  /** The invariants every produced item keeps, for items listed under the URL
      prefix `url` by a scan at `level`:
      a leaf links to `url` followed by its text;
      a group is never empty, is collapsed exactly when `level > 0`, and its
      own items are listed under `url + text + "/"` at `level + 1`. */
  predicate ItemShaped(it: Item, url: string, level: nat)
    decreases it
  {
    match it
    case Leaf(text, link) => link == url + text
    case Group(text, collapsed, items) =>
      && items != []
      && collapsed == (level > 0)
      && AllShaped(items, SubUrl(url, text), level + 1)
  }

  predicate AllShaped(items: seq<Item>, url: string, level: nat)
    decreases items
  {
    forall i :: 0 <= i < |items| ==> ItemShaped(items[i], url, level)
  }

  /** Every scan produces well-shaped items: no empty group, groups directly
      under a category root expanded and deeper ones collapsed, every link the
      URL of its directory followed by its text. */
  lemma {:induction false} ScanWellShaped(es: seq<Entry>, baseUrl: string, level: nat)
    ensures AllShaped(ScanEntries(es, baseUrl, level), baseUrl, level)
    decreases es
  {
    if es != [] {
      EntryWellShaped(es[0], baseUrl, level);
      ScanWellShaped(es[1..], baseUrl, level);
      var a := ProcessEntry(es[0], baseUrl, level);
      var b := ScanEntries(es[1..], baseUrl, level);
      forall i | 0 <= i < |a + b|
        ensures ItemShaped((a + b)[i], baseUrl, level)
      {
        if i < |a| { assert (a + b)[i] == a[i]; } else { assert (a + b)[i] == b[i - |a|]; }
      }
    }
  }

  lemma {:induction false} EntryWellShaped(e: Entry, baseUrl: string, level: nat)
    ensures AllShaped(ProcessEntry(e, baseUrl, level), baseUrl, level)
    decreases e
  {
    if e.Dir? {
      ScanWellShaped(e.children, SubUrl(baseUrl, e.name), level + 1);
    }
  }

  /* ---------------- Links ---------------- */

  /** All leaf links of a sequence of items, depth-first, in display order. */
  function Links(items: seq<Item>): seq<string>
    decreases items
  {
    if items == [] then [] else ItemLinks(items[0]) + Links(items[1..])
  }

  function ItemLinks(it: Item): seq<string>
    decreases it
  {
    match it
    case Leaf(_, link) => [link]
    case Group(_, _, items) => Links(items)
  }

  /** The path (directory names, then the file name) of every page below a
      listing that the scan can reach, in depth-first listing order. */
  function PagePaths(es: seq<Entry>): (ps: seq<seq<string>>)
    ensures forall i :: 0 <= i < |ps| ==> |ps[i]| >= 1
    decreases es
  {
    if es == [] then [] else EntryPagePaths(es[0]) + PagePaths(es[1..])
  }

  function EntryPagePaths(e: Entry): (ps: seq<seq<string>>)
    ensures forall i :: 0 <= i < |ps| ==> |ps[i]| >= 1
    decreases e
  {
    match e
    case File(name) => if IsPage(name) then [[name]] else []
    case Dir(name, children) => Prepend(name, PagePaths(children))
    case _ => []
  }

  function Prepend(name: string, ps: seq<seq<string>>): (r: seq<seq<string>>)
    ensures |r| == |ps|
    ensures forall i :: 0 <= i < |ps| ==> r[i] == [name] + ps[i]
  {
    seq(|ps|, i requires 0 <= i < |ps| => [name] + ps[i])
  }

  /** The URL of the page at `path` below the URL prefix `baseUrl`: each
      directory adds its name and a slash, the file adds its display name. */
  function PageUrl(baseUrl: string, path: seq<string>): string
    requires |path| >= 1
    decreases |path|
  {
    if |path| == 1 then baseUrl + DisplayName(path[0])
    else PageUrl(SubUrl(baseUrl, path[0]), path[1..])
  }

  function PageUrls(baseUrl: string, ps: seq<seq<string>>): (r: seq<string>)
    requires forall i :: 0 <= i < |ps| ==> |ps[i]| >= 1
    ensures |r| == |ps|
    ensures forall i :: 0 <= i < |ps| ==> r[i] == PageUrl(baseUrl, ps[i])
  {
    seq(|ps|, i requires 0 <= i < |ps| => PageUrl(baseUrl, ps[i]))
  }

  /** Every page URL lies under its base URL. */
  lemma {:induction false} PageUrlUnder(baseUrl: string, path: seq<string>)
    requires |path| >= 1
    ensures |baseUrl| <= |PageUrl(baseUrl, path)|
    ensures PageUrl(baseUrl, path)[..|baseUrl|] == baseUrl
    decreases |path|
  {
    if |path| > 1 {
      var sub := SubUrl(baseUrl, path[0]);
      PageUrlUnder(sub, path[1..]);
      assert PageUrl(baseUrl, path)[..|sub|] == sub;
      assert sub[..|baseUrl|] == baseUrl;
    }
  }

  lemma LinksAppend(a: seq<Item>, b: seq<Item>)
    ensures Links(a + b) == Links(a) + Links(b)
    decreases |a|
  {
    if a != [] {
      assert (a + b)[1..] == a[1..] + b;
      LinksAppend(a[1..], b);
    } else {
      assert a + b == b;
    }
  }

  lemma PageUrlsAppend(baseUrl: string, a: seq<seq<string>>, b: seq<seq<string>>)
    requires forall i :: 0 <= i < |a| ==> |a[i]| >= 1
    requires forall i :: 0 <= i < |b| ==> |b[i]| >= 1
    ensures PageUrls(baseUrl, a + b) == PageUrls(baseUrl, a) + PageUrls(baseUrl, b)
  {
  }

  lemma PageUrlsPrepend(baseUrl: string, name: string, ps: seq<seq<string>>)
    requires forall i :: 0 <= i < |ps| ==> |ps[i]| >= 1
    ensures PageUrls(baseUrl, Prepend(name, ps)) == PageUrls(SubUrl(baseUrl, name), ps)
  {
    forall i | 0 <= i < |ps|
      ensures PageUrl(baseUrl, Prepend(name, ps)[i]) == PageUrl(SubUrl(baseUrl, name), ps[i])
    {
      assert Prepend(name, ps)[i][1..] == ps[i];
    }
  }

  /** The leaf links of a scan are exactly the URLs of the reachable pages,
      in depth-first listing order: no page is lost to pruning or grouping,
      no other file appears, and each link is built from the page's path. */
  lemma {:induction false} ScanLinksArePages(es: seq<Entry>, baseUrl: string, level: nat)
    ensures Links(ScanEntries(es, baseUrl, level)) == PageUrls(baseUrl, PagePaths(es))
    decreases es
  {
    if es != [] {
      var a := ProcessEntry(es[0], baseUrl, level);
      var b := ScanEntries(es[1..], baseUrl, level);
      EntryLinksArePages(es[0], baseUrl, level);
      ScanLinksArePages(es[1..], baseUrl, level);
      LinksAppend(a, b);
      PageUrlsAppend(baseUrl, EntryPagePaths(es[0]), PagePaths(es[1..]));
    }
  }

  lemma {:induction false} EntryLinksArePages(e: Entry, baseUrl: string, level: nat)
    ensures Links(ProcessEntry(e, baseUrl, level)) == PageUrls(baseUrl, EntryPagePaths(e))
    decreases e
  {
    match e
    case File(name) =>
    case Dir(name, children) =>
      var sub := SubUrl(baseUrl, name);
      ScanLinksArePages(children, sub, level + 1);
      PageUrlsPrepend(baseUrl, name, PagePaths(children));
      var r := ProcessEntry(e, baseUrl, level);
      if r != [] {
        assert Links(r) == ItemLinks(r[0]) + Links([]);
      }
    case _ =>
  }

  /** Every leaf link anywhere in a scan starts with the scan's base URL. */
  lemma LinksUnderBase(es: seq<Entry>, baseUrl: string, level: nat)
    ensures forall link :: link in Links(ScanEntries(es, baseUrl, level)) ==>
      |baseUrl| <= |link| && link[..|baseUrl|] == baseUrl
  {
    ScanLinksArePages(es, baseUrl, level);
    var ps := PagePaths(es);
    var urls := PageUrls(baseUrl, ps);
    forall link | link in urls
      ensures |baseUrl| <= |link| && link[..|baseUrl|] == baseUrl
    {
      var i :| 0 <= i < |urls| && urls[i] == link;
      PageUrlUnder(baseUrl, ps[i]);
    }
  }
}
