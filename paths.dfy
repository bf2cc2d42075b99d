/**
 * The POSIX `os.path` helpers the pipeline builds its file names with:
 * `split`/`basename`, `dirname`, `join` and `splitext`, over a single separator.
 */
module Paths {

  const Sep: char := '/'

  /** Index of the last occurrence of `c` in `s`, or -1 (Python's `str.rfind`). */
  function LastIndexOf(s: string, c: char): (i: int)
    ensures -1 <= i < |s|
    ensures i >= 0 ==> s[i] == c
  {
    LastIndexBelow(s, c, |s|)
  }

  /** Index of the last occurrence of `c` among the first `n` characters of `s`, or -1. */
  function LastIndexBelow(s: string, c: char, n: nat): (i: int)
    requires n <= |s|
    ensures -1 <= i < n
    ensures i >= 0 ==> s[i] == c
  {
    if n == 0 then -1
    else if s[n - 1] == c then n - 1
    else LastIndexBelow(s, c, n - 1)
  }

  lemma {:induction false} LastIndexBelowIsLast(s: string, c: char, n: nat)
    requires n <= |s|
    ensures forall j :: LastIndexBelow(s, c, n) < j < n ==> s[j] != c
  {
    if n > 0 && s[n - 1] != c {
      LastIndexBelowIsLast(s, c, n - 1);
    }
  }

  /** No occurrence of `c` follows the one LastIndexOf finds. */
  lemma LastIndexOfIsLast(s: string, c: char)
    ensures forall j :: LastIndexOf(s, c) < j < |s| ==> s[j] != c
  {
    LastIndexBelowIsLast(s, c, |s|);
  }

  lemma {:induction false} LastIndexBelowUnique(s: string, c: char, n: nat, i: int)
    requires n <= |s|
    requires -1 <= i < n
    requires i >= 0 ==> s[i] == c
    requires forall j :: i < j < n ==> s[j] != c
    ensures LastIndexBelow(s, c, n) == i
  {
    if i < n - 1 {
      LastIndexBelowUnique(s, c, n - 1, i);
    }
  }

  /** Any index with the properties above is the one LastIndexOf finds. */
  lemma LastIndexOfUnique(s: string, c: char, i: int)
    requires -1 <= i < |s|
    requires i >= 0 ==> s[i] == c
    requires forall j :: i < j < |s| ==> s[j] != c
    ensures LastIndexOf(s, c) == i
  {
    LastIndexBelowUnique(s, c, |s|, i);
  }

  /** Some character of `s` is not a dot. */
  predicate HasNonDot(s: string) {
    |s| > 0 && (s[0] != '.' || HasNonDot(s[1..]))
  }

  /** `os.path.split(p)[-1]` and `os.path.basename(p)`: everything after the last separator. */
  function Basename(p: string): (b: string)
    ensures Sep !in b
    ensures |b| <= |p| && p[|p| - |b|..] == b
    ensures |b| < |p| ==> p[|p| - |b| - 1] == Sep
  {
    LastIndexOfIsLast(p, Sep);
    p[LastIndexOf(p, Sep) + 1..]
  }

  predicate AllSep(s: string) {
    forall k :: 0 <= k < |s| ==> s[k] == Sep
  }

  /** `s.rstrip('/')`. */
  function RStripSep(s: string): (r: string)
    ensures |r| <= |s| && s[..|r|] == r
    ensures r == [] || r[|r| - 1] != Sep
    ensures AllSep(s[|r|..])
  {
    if |s| > 0 && s[|s| - 1] == Sep then
      var r := RStripSep(s[..|s| - 1]);
      assert s[|r|..] == s[..|s| - 1][|r|..] + [s[|s| - 1]];
      r
    else s
  }

  /** `os.path.dirname(p)`: the head up to and including the last separator, with
      trailing separators removed unless the head is made of separators only. */
  function Dirname(p: string): string {
    var head := p[..LastIndexOf(p, Sep) + 1];
    if head != [] && !AllSep(head) then RStripSep(head) else head
  }

  /** `os.path.join(a, b)`. */
  function Join(a: string, b: string): (r: string)
    ensures |b| <= |r| && r[|r| - |b|..] == b
  {
    if |b| > 0 && b[0] == Sep then b
    else if a == [] || a[|a| - 1] == Sep then a + b
    else a + [Sep] + b
  }

  /** `os.path.splitext(p)`: the extension starts at the last dot of the last path
      component, provided a character other than a dot comes before it there. */
  function Splitext(p: string): (parts: (string, string))
    ensures parts.0 + parts.1 == p
    ensures parts.1 == [] || (parts.1[0] == '.' && Sep !in parts.1 && '.' !in parts.1[1..])
  {
    var k := StemEnd(p);
    LastIndexOfIsLast(p, Sep);
    LastIndexOfIsLast(p, '.');
    assert p[..k] + p[k..] == p;
    (p[..k], p[k..])
  }

  /** Where `splitext` cuts `p`: at its extension's dot, or at the end when there is none. */
  function StemEnd(p: string): (k: nat)
    ensures LastIndexOf(p, Sep) < k <= |p|
  {
    var s := LastIndexOf(p, Sep);
    var d := LastIndexOf(p, '.');
    if d > s && HasNonDot(p[s + 1..d]) then d else |p|
  }

  /** `os.path.splitext(p)[0]`. */
  function Stem(p: string): string {
    Splitext(p).0
  }

  predicate EndsWith(s: string, suffix: string) {
    |suffix| <= |s| && s[|s| - |suffix|..] == suffix
  }

  predicate OccursAt(s: string, sub: string, k: nat) {
    k + |sub| <= |s| && s[k..k + |sub|] == sub
  }

  /** Python's `sub in s`. */
  predicate Contains(s: string, sub: string) {
    exists k: nat | k <= |s| :: OccursAt(s, sub, k)
  }

  lemma LastIndexOfPrefix(p: string, c: char, k: nat)
    requires k <= |p|
    ensures LastIndexOf(p[..k], c) == if LastIndexOf(p, c) < k then LastIndexOf(p, c) else LastIndexOf(p[..k], c)
    ensures LastIndexOf(p, c) < k ==> LastIndexOf(p[..k], c) == LastIndexOf(p, c)
  {
    var i := LastIndexOf(p, c);
    LastIndexOfIsLast(p, c);
    if i < k {
      LastIndexOfUnique(p[..k], c, i);
    }
  }

  lemma LastIndexOfSuffix(p: string, c: char, k: nat)
    requires k <= |p|
    ensures LastIndexOf(p[k..], c) == if LastIndexOf(p, c) >= k then LastIndexOf(p, c) - k else -1
  {
    var i := LastIndexOf(p, c);
    LastIndexOfIsLast(p, c);
    if i >= k {
      LastIndexOfUnique(p[k..], c, i - k);
    } else {
      LastIndexOfUnique(p[k..], c, -1);
    }
  }

  lemma StemIsPrefix(p: string)
    ensures Stem(p) == p[..StemEnd(p)]
  {
  }

  /** The last component of `p` without its extension. */
  function BaseRoot(p: string): string {
    p[LastIndexOf(p, Sep) + 1..StemEnd(p)]
  }

  /** In a name without separators the cut depends only on the last dot. */
  lemma StemEndOfName(b: string)
    requires LastIndexOf(b, Sep) == -1
    ensures var db := LastIndexOf(b, '.');
      StemEnd(b) == if db > -1 && HasNonDot(b[..db]) then db else |b|
  {
    assert b[-1 + 1..] == b;
  }

  /** The last component of a path cuts at the same place, shifted by what precedes it. */
  lemma StemEndOfSuffix(p: string, k: nat)
    requires k == LastIndexOf(p, Sep) + 1
    ensures StemEnd(p[k..]) == StemEnd(p) - k
  {
    var b := p[k..];
    var d := LastIndexOf(p, '.');
    LastIndexOfSuffix(p, Sep, k);
    LastIndexOfSuffix(p, '.', k);
    StemEndOfName(b);
    if d >= k {
      assert b[..d - k] == p[k..d];
      assert StemEnd(p) == if HasNonDot(p[k..d]) then d else |p|;
    } else {
      assert StemEnd(p) == |p|;
    }
  }

  lemma StemEndOfBasename(p: string)
    ensures StemEnd(Basename(p)) == StemEnd(p) - (LastIndexOf(p, Sep) + 1)
  {
    StemEndOfSuffix(p, LastIndexOf(p, Sep) + 1);
  }

  lemma StemOfBasename(p: string)
    ensures Stem(Basename(p)) == BaseRoot(p)
  {
    var s := LastIndexOf(p, Sep);
    var b := Basename(p);
    StemIsPrefix(b);
    StemEndOfBasename(p);
    assert b == p[s + 1..];
    assert b[..StemEnd(p) - (s + 1)] == p[s + 1..StemEnd(p)];
  }

  /** Cutting a path after its last separator keeps that separator as the last. */
  lemma BasenameOfPrefix(p: string, k: nat)
    requires LastIndexOf(p, Sep) < k <= |p|
    ensures Basename(p[..k]) == p[LastIndexOf(p, Sep) + 1..k]
  {
    LastIndexOfPrefix(p, Sep, k);
  }

  lemma BasenameOfStem(p: string)
    ensures Basename(Stem(p)) == BaseRoot(p)
  {
    StemIsPrefix(p);
    BasenameOfPrefix(p, StemEnd(p));
  }

  /** Taking the stem and then the base name gives what taking the base name and then
      the stem gives: `basename(splitext(p)[0]) == splitext(split(p)[-1])[0]`. */
  lemma StemBasenameCommute(p: string)
    ensures Basename(Stem(p)) == Stem(Basename(p))
  {
    StemOfBasename(p);
    BasenameOfStem(p);
  }

  /** A name without a separator joined to a directory is that entry's base name. */
  lemma BasenameJoin(dir: string, name: string)
    requires Sep !in name
    ensures Basename(Join(dir, name)) == name
  {
    var r := Join(dir, name);
    assert r[|r| - |name|..] == name;
    if |name| < |r| {
      assert r[|r| - |name| - 1] == Sep;
      LastIndexOfUnique(r, Sep, |r| - |name| - 1);
    } else {
      LastIndexOfUnique(r, Sep, -1);
    }
  }

  /** Joining a separator-free name to a directory without a trailing separator puts the
      result in that directory. */
  lemma DirnameJoin(dir: string, name: string)
    requires Sep !in name
    requires dir == [] || dir[|dir| - 1] != Sep
    ensures Dirname(Join(dir, name)) == dir
  {
    var r := Join(dir, name);
    if dir == [] {
      assert r == name;
      LastIndexOfUnique(r, Sep, -1);
    } else {
      assert r == dir + [Sep] + name;
      LastIndexOfUnique(r, Sep, |dir|);
      var head := r[..|dir| + 1];
      assert head == dir + [Sep];
      assert !AllSep(head) by { assert head[|dir| - 1] != Sep; }
      assert RStripSep(head) == dir;
    }
  }

  lemma EndsWithJoin(dir: string, name: string, suffix: string)
    requires EndsWith(name, suffix)
    ensures EndsWith(Join(dir, name), suffix)
  {
    var r := Join(dir, name);
    assert r[|r| - |name|..] == name;
    assert r[|r| - |suffix|..] == name[|name| - |suffix|..];
  }

  lemma EndsWithAppend(x: string, tail: string, suffix: string)
    requires EndsWith(tail, suffix)
    ensures EndsWith(x + tail, suffix)
  {
    var r := x + tail;
    assert r[|r| - |suffix|..] == tail[|tail| - |suffix|..];
  }

  /** The stem is a prefix of the path that still holds its last separator. */
  lemma StemKeepsLastSep(p: string)
    ensures LastIndexOf(p, Sep) < |Stem(p)| <= |p|
    ensures Stem(p) == p[..|Stem(p)|]
  {
  }

  /** Replacing the extension by a separator-free suffix keeps the last separator and what precedes it. */
  lemma StemSuffixKeepsHead(p: string, suffix: string)
    requires Sep !in suffix
    ensures LastIndexOf(Stem(p) + suffix, Sep) == LastIndexOf(p, Sep)
    ensures (Stem(p) + suffix)[..LastIndexOf(p, Sep) + 1] == p[..LastIndexOf(p, Sep) + 1]
  {
    var s := LastIndexOf(p, Sep);
    var root := Stem(p);
    StemKeepsLastSep(p);
    LastIndexOfIsLast(p, Sep);
    var q := root + suffix;
    forall k | s < k < |q|
      ensures q[k] != Sep
    {
      if k >= |root| {
        assert q[k] == suffix[k - |root|];
      } else {
        assert q[k] == p[k];
      }
    }
    assert s >= 0 ==> q[s] == p[s];
    LastIndexOfUnique(q, Sep, s);
    assert q[..s + 1] == p[..s + 1];
  }

  /** Two paths whose heads up to the last separator agree have the same directory. */
  lemma DirnameOfSameHead(p: string, q: string)
    requires LastIndexOf(q, Sep) == LastIndexOf(p, Sep)
    requires q[..LastIndexOf(p, Sep) + 1] == p[..LastIndexOf(p, Sep) + 1]
    ensures Dirname(q) == Dirname(p)
  {
  }
}
