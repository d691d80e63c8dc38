/** The two `strings` operations the auth middleware relies on: finding the first
    occurrence of a non-empty pattern, and `strings.Replace(s, old, new, 1)`. */
module Text {
  import opened Wrappers

  predicate OccursAt(s: string, pat: string, i: int) {
    0 <= i && i + |pat| <= |s| && s[i..i + |pat|] == pat
  }

  /** First occurrence of `pat` at or after position `from`. */
  function IndexFrom(s: string, pat: string, from: nat): (r: Option<nat>)
    requires |pat| > 0
    ensures r.Some? ==> from <= r.value && OccursAt(s, pat, r.value)
    ensures r.Some? ==> forall j :: from <= j < r.value ==> !OccursAt(s, pat, j)
    ensures r.None? ==> forall j :: from <= j ==> !OccursAt(s, pat, j)
    decreases |s| - from
  {
    if from + |pat| > |s| then None
    else if s[from..from + |pat|] == pat then Some(from)
    else IndexFrom(s, pat, from + 1)
  }

  /** `strings.Index`: the first occurrence, wherever it is. */
  function IndexOf(s: string, pat: string): (r: Option<nat>)
    requires |pat| > 0
    ensures r.Some? ==> OccursAt(s, pat, r.value) && forall j :: 0 <= j < r.value ==> !OccursAt(s, pat, j)
    ensures r.None? ==> forall j :: 0 <= j ==> !OccursAt(s, pat, j)
  {
    IndexFrom(s, pat, 0)
  }

  /** An occurrence with none before it is the one `IndexOf` finds. */
  lemma FirstOccurrence(s: string, pat: string, i: nat)
    requires |pat| > 0 && OccursAt(s, pat, i)
    requires forall j :: 0 <= j < i ==> !OccursAt(s, pat, j)
    ensures IndexOf(s, pat) == Some(i)
  {
  }

  /** `strings.Replace(s, pat, rep, 1)`: the first occurrence of a non-empty `pat` becomes `rep`. */
  function ReplaceFirst(s: string, pat: string, rep: string): (r: string)
    requires |pat| > 0
    ensures IndexOf(s, pat).None? ==> r == s
    ensures IndexOf(s, pat).Some? ==> |r| == |s| - |pat| + |rep|
  {
    match IndexOf(s, pat)
    case None => s
    case Some(i) => s[..i] + rep + s[i + |pat|..]
  }

  /** Removing the first occurrence is undone by putting `pat` back at the same place:
      the result keeps everything before and after the occurrence, in order. */
  lemma {:induction false} ReplaceFirstReinsert(s: string, pat: string)
    requires |pat| > 0 && IndexOf(s, pat).Some?
    ensures var i := IndexOf(s, pat).value;
      var r := ReplaceFirst(s, pat, "");
      i <= |r| && r[..i] + pat + r[i..] == s
  {
    var i := IndexOf(s, pat).value;
    var r := ReplaceFirst(s, pat, "");
    assert r == s[..i] + s[i + |pat|..];
    assert r[..i] == s[..i];
    assert r[i..] == s[i + |pat|..];
    assert s == s[..i] + s[i..i + |pat|] + s[i + |pat|..];
  }
}
