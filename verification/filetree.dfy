/** The part of the filesystem the sidebar builder sees, as a finite tree.
    Each entry is what `statSync` and `readdirSync` report for one name in a
    directory listing; a directory carries its listing in enumeration order.
    Because the tree is finite and inductive, symbolic-link cycles cannot be
    expressed: the scan always terminates here, which the real filesystem
    does not guarantee. */
module FileTree {
  import opened Wrappers

  datatype Entry =
    | File(name: string)                       // stat reports a regular file
    | Dir(name: string, children: seq<Entry>)  // stat reports a directory and its listing succeeds
    | Special(name: string)                    // stat succeeds; neither a regular file nor a directory
    | Unlistable(name: string)                 // stat reports a directory, but listing it throws
    | Unstatable(name: string)                 // stat throws (permission, dangling link, ...)

  /** `existsSync` on the entry's path: false exactly when stat fails. */
  predicate Exists(e: Entry) {
    !e.Unstatable?
  }

  /** Processing this entry throws: its own stat, or the listing of the
      directory it names, fails. */
  predicate Fails(e: Entry) {
    e.Unlistable? || e.Unstatable?
  }

  /** The entry named `name` in a listing (`join(dir, name)`); the first one
      if a listing were to repeat a name. */
  function Find(es: seq<Entry>, name: string): (r: Option<Entry>)
    ensures r.Some? <==> exists i :: 0 <= i < |es| && es[i].name == name
    ensures r.Some? ==> r.value in es && r.value.name == name
    ensures r.Some? ==>
      exists i :: 0 <= i < |es| && es[i] == r.value && (forall j :: 0 <= j < i ==> es[j].name != name)
  {
    if es == [] then None
    else if es[0].name == name then Some(es[0])
    else Find(es[1..], name)
  }

  /** No entry fails, at any depth. */
  predicate NoFailures(es: seq<Entry>)
    decreases es
  {
    forall i :: 0 <= i < |es| ==> EntryNoFailures(es[i])
  }

  predicate EntryNoFailures(e: Entry)
    decreases e
  {
    !Fails(e) && (e.Dir? ==> NoFailures(e.children))
  }

  /** The same tree with every failing entry removed, at every depth; a tree
      without failures is left as it is. */
  function Prune(es: seq<Entry>): (r: seq<Entry>)
    ensures |r| <= |es|
    ensures NoFailures(r)
    ensures NoFailures(es) ==> r == es
    decreases es
  {
    if es == [] then []
    else if Fails(es[0]) then
      assert !EntryNoFailures(es[0]);
      Prune(es[1..])
    else
      var head, rest := PruneEntry(es[0]), Prune(es[1..]);
      assert forall i :: 0 <= i < |[head] + rest| ==>
        ([head] + rest)[i] == if i == 0 then head else rest[i - 1];
      [head] + rest
  }

  function PruneEntry(e: Entry): (r: Entry)
    requires !Fails(e)
    ensures r.name == e.name && EntryNoFailures(r)
    ensures r.Dir? == e.Dir?
    ensures EntryNoFailures(e) ==> r == e
    decreases e
  {
    match e
    case Dir(name, children) => Dir(name, Prune(children))
    case _ => e
  }
}
