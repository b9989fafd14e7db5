/** The string operations the bundler performs through JavaScript's
    `String.prototype.replace`: a first-occurrence replace with a string
    pattern, an anchored replace with a `^literal` regular expression, and
    the extension-stripping regular expression `/\.[^.]+$/`. Replacement
    strings are inserted literally. */
module Strings {
  import opened Results

  /** `p` occurs in `s` starting at index `i`. */
  predicate OccursAt(s: string, p: string, i: nat) {
    i + |p| <= |s| && s[i..i + |p|] == p
  }

  predicate StartsWith(s: string, p: string) {
    |p| <= |s| && s[..|p|] == p
  }

  predicate EndsWith(s: string, p: string) {
    |p| <= |s| && s[|s| - |p|..] == p
  }

  /** `p` occurs somewhere in `s`. */
  predicate Contains(s: string, p: string) {
    exists i: nat :: i <= |s| && OccursAt(s, p, i)
  }

  /** `i` is the first index where `p` occurs in `s`. */
  predicate FirstOccurrence(s: string, p: string, i: nat) {
    OccursAt(s, p, i) && forall j: nat :: j < i ==> !OccursAt(s, p, j)
  }

  /** The least index at or after `k` where `p` occurs in `s`. */
  function IndexFrom(s: string, p: string, k: nat): (r: Option<nat>)
    requires k <= |s|
    ensures r.Some? ==> k <= r.value && OccursAt(s, p, r.value)
    ensures r.Some? ==> forall j: nat :: k <= j < r.value ==> !OccursAt(s, p, j)
    ensures r.None? ==> forall j: nat :: k <= j ==> !OccursAt(s, p, j)
    decreases |s| - k
  {
    if OccursAt(s, p, k) then Some(k)
    else if k == |s| then None
    else IndexFrom(s, p, k + 1)
  }

  /** `s.indexOf(p)`: the first index where `p` occurs, if any. */
  function IndexOf(s: string, p: string): (r: Option<nat>)
    ensures r.Some? ==> FirstOccurrence(s, p, r.value)
    ensures r.None? <==> !Contains(s, p)
  {
    IndexFrom(s, p, 0)
  }

  /** `s.replace(p, rep)` with a string pattern: only the first occurrence of
      `p`, wherever it is, is replaced; without an occurrence `s` is returned. */
  function ReplaceFirst(s: string, p: string, rep: string): (r: string)
    ensures !Contains(s, p) ==> r == s
    ensures forall i: nat :: FirstOccurrence(s, p, i) ==> r == s[..i] + rep + s[i + |p|..]
  {
    match IndexOf(s, p)
    case None => s
    case Some(i) => s[..i] + rep + s[i + |p|..]
  }

  /** The replace acts at the index `indexOf` reports. */
  lemma ReplaceFirstAt(s: string, p: string, rep: string, i: nat)
    requires IndexOf(s, p) == Some(i)
    ensures i + |p| <= |s| && ReplaceFirst(s, p, rep) == s[..i] + rep + s[i + |p|..]
  {
  }

  /** `p` is found right after `a` when no character of `a` can start it. */
  lemma IndexOfAfter(a: string, p: string, c: string)
    requires |p| > 0 && forall j :: 0 <= j < |a| ==> a[j] != p[0]
    ensures IndexOf(a + p + c, p) == Some(|a|)
  {
    var s := a + p + c;
    assert s[|a|..|a| + |p|] == p;
    assert IndexFrom(s, p, |a|) == Some(|a|);
    var k := |a|;
    while k > 0
      invariant 0 <= k <= |a|
      invariant IndexFrom(s, p, k) == Some(|a|)
    {
      k := k - 1;
      assert s[k] == a[k];
      assert s[k..k + |p|][0] == s[k];
    }
  }

  /** Replacing the first occurrence when it follows `a`. */
  lemma ReplaceFirstBetween(a: string, p: string, c: string, rep: string)
    requires IndexOf(a + p + c, p) == Some(|a|)
    ensures ReplaceFirst(a + p + c, p, rep) == a + rep + c
  {
    var s := a + p + c;
    ReplaceFirstAt(s, p, rep, |a|);
    assert s[..|a|] == a;
    assert s[|a| + |p|..] == c;
  }

  /** A final dot followed by non-dot characters is the extension. */
  lemma StripExtensionOf(x: string, ext: string)
    requires |ext| >= 2 && ext[0] == '.'
    requires forall j :: 0 < j < |ext| ==> ext[j] != '.'
    ensures StripExtension(x + ext) == x
  {
    var s := x + ext;
    forall j | |x| < j < |s|
      ensures s[j] != '.'
    {
      assert s[j] == ext[j - |x|];
    }
    assert ExtensionAt(s, |x|);
    assert s[..|x|] == x;
  }

  /** `s.replace(/^p/, rep)` for a literal `p`: replaces `p` only when `s`
      begins with it. */
  function ReplaceLeading(s: string, p: string, rep: string): (r: string)
    ensures StartsWith(s, p) ==> r == rep + s[|p|..]
    ensures !StartsWith(s, p) ==> r == s
  {
    if StartsWith(s, p) then rep + s[|p|..] else s
  }

  /** The anchored replace agrees with the first-occurrence replace when the
      pattern starts the string or does not occur at all; when it occurs
      only further in, the anchored replace leaves the string alone and the
      other does not. */
  lemma LeadingVersusFirst(s: string, p: string, rep: string)
    ensures StartsWith(s, p) ==> ReplaceFirst(s, p, rep) == ReplaceLeading(s, p, rep)
    ensures !Contains(s, p) ==> ReplaceFirst(s, p, rep) == ReplaceLeading(s, p, rep)
    ensures (Contains(s, p) && !StartsWith(s, p) && |rep| != |p|)
            ==> ReplaceLeading(s, p, rep) == s != ReplaceFirst(s, p, rep)
  {
    if StartsWith(s, p) {
      assert s[0..|p|] == s[..|p|];
      assert FirstOccurrence(s, p, 0);
      assert s[..0] + rep + s[|p|..] == rep + s[|p|..];
    } else if Contains(s, p) {
      var i := IndexOf(s, p).value;
      assert ReplaceFirst(s, p, rep) == s[..i] + rep + s[i + |p|..];
    }
  }

  /** The last index of character `c` in `s`. */
  function LastIndex(s: string, c: char): (r: Option<nat>)
    ensures r.Some? ==> r.value < |s| && s[r.value] == c
    ensures r.Some? ==> forall j :: r.value < j < |s| ==> s[j] != c
    ensures r.None? ==> forall j :: 0 <= j < |s| ==> s[j] != c
  {
    if |s| == 0 then None
    else if s[|s| - 1] == c then Some(|s| - 1)
    else LastIndex(s[..|s| - 1], c)
  }

  /** The regular expression `/\.[^.]+$/` matches `s` at index `i`: a dot at
      `i` followed by one or more non-dot characters up to the end of `s`.
      `[^.]` matches any other character, the path separator `/` included. */
  predicate ExtensionAt(s: string, i: int) {
    0 <= i < |s| - 1 && s[i] == '.' && forall j :: i < j < |s| ==> s[j] != '.'
  }

  /** `s.replace(/\.[^.]+$/, '')`: removes the match of the extension
      regular expression, and leaves `s` alone when there is none. */
  function StripExtension(s: string): (r: string)
    ensures forall i :: ExtensionAt(s, i) ==> r == s[..i]
    ensures (forall i :: !ExtensionAt(s, i)) ==> r == s
  {
    match LastIndex(s, '.')
    case None => s
    case Some(i) =>
      if i + 1 < |s| then
        assert ExtensionAt(s, i);
        s[..i]
      else s
  }

  /** The regular expression is not confined to the last path segment: an
      href without an extension loses the part of a directory name after
      its last dot, and everything below that directory. */
  lemma StripExtensionCrossesSegments()
    ensures StripExtension("memory:/dir.v2/index") == "memory:/dir"
  {
    assert ExtensionAt("memory:/dir.v2/index", 11);
  }

  /** `Uri.ensureTrailingSlash(u).toString()`, with the URI taken as its
      string form: one `/` is appended unless `u` already ends with one. */
  function EnsureTrailingSlash(u: string): (r: string)
    ensures EndsWith(r, "/")
    ensures StartsWith(r, u) && |r| <= |u| + 1
    ensures EndsWith(u, "/") ==> r == u
  {
    if EndsWith(u, "/") then u else u + "/"
  }

  /** Concatenation is associative. */
  lemma Assoc<T>(a: seq<T>, b: seq<T>, c: seq<T>)
    ensures a + b + c == a + (b + c)
  {
  }

  /** Four concatenated sequences, regrouped after the first. */
  lemma Regroup<T>(a: seq<T>, b: seq<T>, c: seq<T>, d: seq<T>)
    ensures a + b + c + d == a + (b + c + d)
  {
    Assoc(a, b, c);
    Assoc(a, b + c, d);
  }
}
