/** The two JavaScript string operations the sidebar builder relies on:
    `String.prototype.endsWith` and `String.prototype.replace` with a plain
    string pattern, which replaces only the FIRST occurrence. */
module Strings {
  import opened Wrappers

  /** `s.endsWith(suffix)`. */
  predicate EndsWith(s: string, suffix: string) {
    |suffix| <= |s| && s[|s| - |suffix|..] == suffix
  }

  /** `pat` occurs in `s` starting at index `i`. */
  predicate OccursAt(s: string, pat: string, i: nat) {
    i + |pat| <= |s| && s[i..i + |pat|] == pat
  }

  /** The leftmost index at or after `from` where `pat` occurs in `s`. */
  function FirstIndexFrom(s: string, pat: string, from: nat): (r: Option<nat>)
    requires from <= |s|
    ensures r.Some? ==> from <= r.value && OccursAt(s, pat, r.value)
    ensures r.Some? ==> forall j :: from <= j < r.value ==> !OccursAt(s, pat, j)
    ensures r.None? ==> forall j :: from <= j <= |s| ==> !OccursAt(s, pat, j)
    decreases |s| - from
  {
    if OccursAt(s, pat, from) then Some(from)
    else if from == |s| then None
    else FirstIndexFrom(s, pat, from + 1)
  }

  /** `s.indexOf(pat)`, with `None` for -1. */
  function FirstIndex(s: string, pat: string): Option<nat> {
    FirstIndexFrom(s, pat, 0)
  }

  /** `s.replace(pat, '')` for a string (not regular-expression) `pat`:
      the first occurrence of `pat` is cut out, later ones are kept. */
  function RemoveFirst(s: string, pat: string): string {
    match FirstIndex(s, pat)
    case None => s
    case Some(i) => s[..i] + s[i + |pat|..]
  }

  /** `RemoveFirst` is characterised by the leftmost occurrence: cutting at an
      occurrence with none before it gives the result, and putting `pat` back
      at that index restores the input. */
  lemma RemoveFirstAt(s: string, pat: string, i: nat)
    requires OccursAt(s, pat, i)
    requires forall j :: 0 <= j < i ==> !OccursAt(s, pat, j)
    ensures RemoveFirst(s, pat) == s[..i] + s[i + |pat|..]
    ensures |RemoveFirst(s, pat)| == |s| - |pat|
    ensures s == RemoveFirst(s, pat)[..i] + pat + RemoveFirst(s, pat)[i..]
  {
    var r := RemoveFirst(s, pat);
    assert FirstIndex(s, pat) == Some(i);
    assert r[..i] == s[..i];
    assert r[i..] == s[i + |pat|..];
    assert s == s[..i] + s[i..i + |pat|] + s[i + |pat|..];
  }

  /** Without an occurrence the string is returned unchanged. */
  lemma RemoveFirstAbsent(s: string, pat: string)
    requires forall j :: 0 <= j <= |s| ==> !OccursAt(s, pat, j)
    ensures RemoveFirst(s, pat) == s
  {
  }

  /** When the suffix is the only occurrence, removing the first occurrence is
      the same as dropping the suffix. */
  lemma RemoveFirstOfUniqueSuffix(s: string, suffix: string)
    requires EndsWith(s, suffix)
    requires forall j :: 0 <= j < |s| - |suffix| ==> !OccursAt(s, suffix, j)
    ensures RemoveFirst(s, suffix) == s[..|s| - |suffix|]
  {
    var k := |s| - |suffix|;
    assert OccursAt(s, suffix, k);
    RemoveFirstAt(s, suffix, k);
    assert s[k + |suffix|..] == [];
  }

  /** With two occurrences it is the first that goes: `a.md.b.md` becomes
      `a.b.md`, not `a.md.b`. */
  lemma RemoveFirstKeepsLaterOccurrence()
    ensures RemoveFirst("a.md.b.md", ".md") == "a.b.md"
    ensures RemoveFirst("a.md.b.md", ".md") != "a.md.b"
  {
    var s := "a.md.b.md";
    assert s[0..3][0] == 'a';
    assert !OccursAt(s, ".md", 0);
    assert OccursAt(s, ".md", 1);
    RemoveFirstAt(s, ".md", 1);
  }
}
