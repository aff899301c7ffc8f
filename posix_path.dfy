/** The parts of Python's `os.path` (as `posixpath` defines them) that the
    scripts use to derive output file names: `split`, `basename`, `splitext`
    and `join`, together with `str.rfind`, on which they are built. */
module PosixPath {

  import opened Strings

  const Sep: char := '/'
  const ExtSep: char := '.'

  /** `s.rfind(c)`: the highest index holding `c`, or -1 when there is none. */
  function RFind(s: string, c: char): (r: int)
    ensures -1 <= r < |s|
    ensures r >= 0 ==> s[r] == c
    ensures forall k :: r < k < |s| ==> s[k] != c
    decreases |s|
  {
    if s == [] then -1
    else if s[|s| - 1] == c then |s| - 1
    else RFind(s[..|s| - 1], c)
  }

  /** The contract of `RFind` determines its result: any index with those
      properties is the one `RFind` returns. */
  lemma RFindIs(s: string, c: char, r: int)
    requires r == -1 || (0 <= r < |s| && s[r] == c)
    requires forall k :: r < k < |s| ==> s[k] != c
    ensures RFind(s, c) == r
  {
  }

  predicate AllSeps(s: string)
  {
    forall i :: 0 <= i < |s| ==> s[i] == Sep
  }

  /** `s.rstrip('/')`. */
  function RStripSeps(s: string): (r: string)
    ensures |r| <= |s| && r == s[..|r|]
    ensures r == [] || r[|r| - 1] != Sep
    ensures forall k :: |r| <= k < |s| ==> s[k] == Sep
    decreases |s|
  {
    if s != [] && s[|s| - 1] == Sep then RStripSeps(s[..|s| - 1]) else s
  }

  /** A directory part as `Split` produces it: empty, only separators, or not
      ending in a separator. */
  predicate IsHead(h: string)
  {
    h == [] || AllSeps(h) || h[|h| - 1] != Sep
  }

  /** `os.path.split(p)`: everything after the last '/' is the tail; the head is
      everything up to it, with trailing '/' removed unless it is only '/'. */
  function Split(p: string): (parts: (string, string))
    ensures Sep !in parts.1
    ensures EndsWith(p, parts.1)
    ensures |parts.0| <= |p| && parts.0 == p[..|parts.0|]
    ensures IsHead(parts.0)
    ensures parts.0 == [] <==> Sep !in p
  {
    var i := RFind(p, Sep) + 1;
    var head := p[..i];
    assert Sep in p ==> p[i - 1] == Sep;
    (if head != [] && !AllSeps(head) then RStripSeps(head) else head, p[i..])
  }

  /** `Split` cuts at the last '/': the tail is everything after it (the whole
      path when there is none), and only '/' lie between head and tail. A head
      made only of '/' keeps all of them. */
  lemma SplitAtLastSep(p: string)
    ensures |Split(p).0| + |Split(p).1| <= |p|
    ensures |Split(p).1| == |p| || p[|p| - |Split(p).1| - 1] == Sep
    ensures AllSeps(p[|Split(p).0|..|p| - |Split(p).1|])
    ensures Split(p).0 != [] && AllSeps(Split(p).0) ==> |Split(p).0| + |Split(p).1| == |p|
  {
    var i := RFind(p, Sep) + 1;
    var (head, tail) := Split(p);
    assert tail == p[i..];
    if Sep in p {
      assert p[i - 1] == Sep;
      if !AllSeps(p[..i]) {
        assert head == RStripSeps(p[..i]);
      }
    }
  }

  /** `os.path.basename(p)`. */
  function Basename(p: string): string
  {
    Split(p).1
  }

  /** `os.path.join(a, b)`: `b` alone when it is absolute, otherwise `b`
      appended to `a` with one '/' between them unless `a` is empty or
      already ends in '/'. */
  function Join(a: string, b: string): string
  {
    if |b| > 0 && b[0] == Sep then b
    else if a == [] || a[|a| - 1] == Sep then a + b
    else a + [Sep] + b
  }

  /** `os.path.splitext(p)`: the extension starts at the last '.' after the
      last '/', unless only dots precede that '.' in the file name. */
  function SplitExt(p: string): (parts: (string, string))
    ensures parts.0 + parts.1 == p
    ensures parts.1 == [] || (parts.1[0] == ExtSep && ExtSep !in parts.1[1..] && Sep !in parts.1)
  {
    var sepIndex := RFind(p, Sep);
    var dotIndex := RFind(p, ExtSep);
    if dotIndex > sepIndex && exists k :: sepIndex < k < dotIndex && p[k] != ExtSep then
      (p[..dotIndex], p[dotIndex..])
    else
      (p, [])
  }

  /** `SplitExt` finds an extension exactly when the last path component has
      a '.' with some character other than '.' before it. */
  lemma SplitExtFindsExtension(p: string)
    ensures SplitExt(p).1 != [] <==>
      exists i, k :: 0 <= i < k < |p| && p[i] != ExtSep && p[k] == ExtSep && Sep !in p[i..]
  {
    var sepIndex := RFind(p, Sep);
    var dotIndex := RFind(p, ExtSep);
    if dotIndex > sepIndex && exists k :: sepIndex < k < dotIndex && p[k] != ExtSep {
      var k :| sepIndex < k < dotIndex && p[k] != ExtSep;
      assert Sep !in p[k..] by {
        assert forall j :: k <= j < |p| ==> p[j] != Sep;
      }
      assert p[dotIndex] == ExtSep;
    } else {
      forall i, k | 0 <= i < k < |p| && p[i] != ExtSep && p[k] == ExtSep && Sep !in p[i..]
        ensures false
      {
      }
    }
  }

  /** A path without '/' is a bare file name: no folder part. */
  lemma SplitBareName(p: string)
    requires Sep !in p
    ensures Split(p) == ("", p)
  {
    SplitJoin("", p);
    assert Join("", p) == p;
  }

  /** A file name directly under the root: the folder is "/". */
  lemma SplitRootFile(name: string)
    requires Sep !in name
    ensures Split([Sep] + name) == ([Sep], name)
  {
    assert AllSeps([Sep]);
    SplitJoin([Sep], name);
    assert Join([Sep], name) == [Sep] + name;
  }

  /** A name without '/' placed right after a '/' (or at the start) is the
      tail `Split` returns. */
  lemma SplitTailAfterSep(prefix: string, name: string)
    requires prefix == [] || prefix[|prefix| - 1] == Sep
    requires Sep !in name
    ensures Split(prefix + name).1 == name
  {
    var p := prefix + name;
    RFindIs(p, Sep, |prefix| - 1);
    assert p[|prefix|..] == name;
  }

  /** Splitting a joined path gives back its two parts: the directory part as
      `Split` produces it, and a file name without '/'. */
  lemma SplitJoin(head: string, name: string)
    requires IsHead(head)
    requires Sep !in name
    ensures Split(Join(head, name)) == (head, name)
  {
    var p := Join(head, name);
    if head == [] {
      assert p == name;
      RFindIs(p, Sep, -1);
      assert p[..0] == [];
    } else if head[|head| - 1] == Sep {
      assert p == head + name;
      RFindIs(p, Sep, |head| - 1);
      assert p[..|head|] == head;
      assert p[|head|..] == name;
    } else {
      assert p == head + [Sep] + name;
      RFindIs(p, Sep, |head|);
      var h := p[..|head| + 1];
      assert h == head + [Sep];
      assert p[|head| + 1..] == name;
      assert !AllSeps(h) by { assert h[|head| - 1] != Sep; }
      assert h[..|h| - 1] == head;
      assert RStripSeps(h) == RStripSeps(head);
    }
  }
}
