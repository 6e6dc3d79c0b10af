/** Gateway paths.  A path is the sequence of its components; the data root is [].
    The string form, with its slashes, is `Render`, and the lemmas of this module
    say that prefix tests on strings are prefix tests on component sequences. */
module Paths {
  type Name = string
  type Path = seq<Name>

  predicate IsName(n: Name) {
    n != "" && '/' !in n
  }

  predicate IsPath(p: Path) {
    forall i | 0 <= i < |p| :: IsName(p[i])
  }

  /** p lies strictly below a. */
  predicate Below(a: Path, p: Path) {
    |a| < |p| && p[..|a|] == a
  }

  function Parent(p: Path): Path
    requires p != []
  {
    p[..|p| - 1]
  }

  function Base(p: Path): Name
    requires p != []
  {
    p[|p| - 1]
  }

  /** The path p without its first |src| components, hung below `dst`. */
  function Rebase(p: Path, src: Path, dst: Path): Path {
    if |src| <= |p| then dst + p[|src|..] else dst
  }

  /** p is a or lies below it. */
  predicate Within(a: Path, p: Path) {
    |a| <= |p| && p[..|a|] == a
  }

  /** Where p is after everything within `src` has been moved to `dst`. */
  function Shift(p: Path, src: Path, dst: Path): Path {
    if Within(src, p) then Rebase(p, src, dst) else p
  }

  /** "/a/b" for ["a", "b"], and "" for the root: the form used as a prefix. */
  function Slashed(p: Path): string {
    if p == [] then "" else "/" + p[0] + Slashed(p[1..])
  }

  function Render(p: Path): string {
    if p == [] then "/" else Slashed(p)
  }

  predicate HasPrefix(s: string, pre: string) {
    |pre| <= |s| && s[..|pre|] == pre
  }

  lemma {:induction false} SlashedConcat(a: Path, b: Path)
    ensures Slashed(a + b) == Slashed(a) + Slashed(b)
  {
    if a == [] {
      assert a + b == b;
    } else {
      assert (a + b)[1..] == a[1..] + b;
      SlashedConcat(a[1..], b);
      assert "/" + a[0] + (Slashed(a[1..]) + Slashed(b)) == ("/" + a[0] + Slashed(a[1..])) + Slashed(b);
    }
  }

  /** Two names each followed by a slash (or by nothing) agree once the strings do. */
  lemma {:induction false} NameEndsAtSlash(m: Name, x: string, n: Name, y: string)
    requires IsName(m) && IsName(n)
    requires x != "" && x[0] == '/'
    requires y == "" || y[0] == '/'
    requires HasPrefix(n + y, m + x)
    ensures m == n && HasPrefix(y, x)
  {
    var s, t := n + y, m + x;
    assert forall i | 0 <= i < |t| :: s[i] == s[..|t|][i] == t[i];
    assert forall i | 0 <= i < |n| :: s[i] == n[i] != '/';
    assert forall i | 0 <= i < |m| :: t[i] == m[i] != '/';
    assert t[|m|] == '/' && s[|m|] == '/';
    assert |n + y| > |n| ==> s[|n|] == '/';
    assert |m| == |n|;
    assert forall i | 0 <= i < |m| :: m[i] == t[i] && n[i] == s[i];
    assert forall i | 0 <= i < |x| :: x[i] == t[|m| + i] && s[|m| + i] == y[i];
    assert y[..|x|] == x;
  }

  lemma PrefixAppend(u: string, s: string, pre: string)
    ensures HasPrefix(u + s, u + pre) <==> HasPrefix(s, pre)
  {
    if |pre| <= |s| {
      assert (u + s)[..|u + pre|] == u + s[..|pre|];
      assert (u + s[..|pre|])[|u|..] == s[..|pre|];
      assert (u + pre)[|u|..] == pre;
    }
  }

  lemma BelowStep(a: Path, p: Path)
    requires a != [] && p != []
    ensures Below(a, p) <==> a[0] == p[0] && Below(a[1..], p[1..])
  {
    if |a| < |p| {
      assert p[..|a|] == [p[0]] + p[1..][..|a| - 1];
      assert a == [a[0]] + a[1..];
    }
  }

  lemma FirstNameDecides(m: Name, x: string, n: Name, y: string)
    requires IsName(m) && IsName(n)
    requires x != "" && x[0] == '/'
    requires y == "" || y[0] == '/'
    ensures HasPrefix("/" + n + y, "/" + m + x) <==> m == n && HasPrefix(y, x)
  {
    assert "/" + n + y == "/" + (n + y) && "/" + m + x == "/" + (m + x);
    PrefixAppend("/", n + y, m + x);
    if HasPrefix(n + y, m + x) {
      NameEndsAtSlash(m, x, n, y);
    }
    PrefixAppend(m, y, x);
  }

  /** The string test `HasPrefix(p, a + "/")` is the component test `Below`. */
  lemma {:induction false} PrefixIsBelow(a: Path, p: Path)
    requires IsPath(a) && IsPath(p)
    ensures HasPrefix(Slashed(p), Slashed(a) + "/") <==> Below(a, p)
  {
    if p == [] {
    } else if a == [] {
      assert Slashed(a) + "/" == "/";
      assert Slashed(p)[..1] == "/";
    } else {
      var x, y := Slashed(a[1..]) + "/", Slashed(p[1..]);
      assert IsPath(a[1..]) && IsPath(p[1..]);
      PrefixIsBelow(a[1..], p[1..]);
      BelowStep(a, p);
      assert Slashed(a) + "/" == "/" + a[0] + x;
      FirstNameDecides(a[0], x, p[0], y);
    }
  }

  lemma {:induction false} SlashedInjective(a: Path, b: Path)
    requires IsPath(a) && IsPath(b)
    requires Slashed(a) == Slashed(b)
    ensures a == b
  {
    if a != [] && b != [] {
      FirstNames(a[0], Slashed(a[1..]), b[0], Slashed(b[1..]));
      assert IsPath(a[1..]) && IsPath(b[1..]);
      SlashedInjective(a[1..], b[1..]);
      assert a == [a[0]] + a[1..] && b == [b[0]] + b[1..];
    }
  }

  lemma FirstNames(m: Name, u: string, n: Name, v: string)
    requires IsName(m) && IsName(n) && "/" + m + u == "/" + n + v
    requires (u == "" || u[0] == '/') && (v == "" || v[0] == '/')
    ensures m == n && u == v
  {
    var x, y := u + "/", v + "/";
    assert m + u == ("/" + m + u)[1..] == n + v;
    assert m + x == (m + u) + "/" == (n + v) + "/" == n + y;
    assert (n + y)[..|m + x|] == m + x;
    NameEndsAtSlash(m, x, n, y);
    assert u == (m + u)[|m|..] == v;
  }

  /** The UNIQUE constraint on rendered paths is uniqueness of component sequences. */
  lemma RenderInjective(a: Path, b: Path)
    requires IsPath(a) && IsPath(b)
    requires Render(a) == Render(b)
    ensures a == b
  {
    assert a != [] ==> IsName(a[0]) && |Render(a)| >= 2;
    assert b != [] ==> IsName(b[0]) && |Render(b)| >= 2;
    if a != [] && b != [] {
      SlashedInjective(a, b);
    }
  }

  lemma {:induction false} BelowIsShorter(a: Path, p: Path)
    requires Below(a, p)
    ensures |Slashed(a)| < |Slashed(p)|
  {
    assert p == a + p[|a|..];
    SlashedConcat(a, p[|a|..]);
  }

  /** `newPath || substr(path, len(oldPath)+1)` on strings is `Rebase` on components. */
  lemma {:induction false} SubstrIsRebase(p: Path, src: Path, dst: Path)
    requires IsPath(p) && Below(src, p)
    ensures |Slashed(src)| <= |Slashed(p)|
    ensures Slashed(Rebase(p, src, dst)) == Slashed(dst) + Slashed(p)[|Slashed(src)|..]
  {
    assert p == src + p[|src|..];
    SlashedConcat(src, p[|src|..]);
    SlashedConcat(dst, p[|src|..]);
  }

  /** The number of bytes UTF-8 takes for a character. */
  function Utf8Len(c: char): nat {
    if c as int < 0x80 then 1 else if c as int < 0x800 then 2 else if c as int < 0x1_0000 then 3 else 4
  }

  /** len(s) */
  function ByteLen(s: string): (n: nat)
    ensures n >= |s|
  {
    if s == "" then 0 else Utf8Len(s[0]) + ByteLen(s[1..])
  }

  /** substr(s, n+1) */
  function Skip(s: string, n: nat): string {
    if n <= |s| then s[n..] else ""
  }

  /** The statement skips as many characters as the old prefix has bytes: the new path is right
      if and only if the old prefix has as many bytes as characters. */
  lemma SubstrIsExact(p: Path, src: Path, dst: Path)
    requires IsPath(p) && Below(src, p)
    ensures Slashed(dst) + Skip(Slashed(p), ByteLen(Slashed(src))) == Slashed(Rebase(p, src, dst))
            <==> ByteLen(Slashed(src)) == |Slashed(src)|
  {
    SubstrIsRebase(p, src, dst);
    BelowIsShorter(src, p);
    assert |Slashed(dst) + Skip(Slashed(p), ByteLen(Slashed(src)))| == |Slashed(dst)| + |Skip(Slashed(p), ByteLen(Slashed(src)))|;
  }

  lemma WithinCases(a: Path, p: Path)
    ensures Within(a, p) <==> a == p || Below(a, p)
    ensures p != [] ==> (Below(a, p) <==> Within(a, Parent(p)))
  {
    if |a| == |p| {
      assert p[..|a|] == p;
    }
    assert |a| < |p| ==> Parent(p)[..|a|] == p[..|a|];
  }

  lemma ShiftParent(p: Path, src: Path, dst: Path)
    requires p != [] && p != src
    requires IsPath(p) && IsPath(dst)
    ensures var q := Shift(p, src, dst);
            q != [] && IsPath(q) && Base(q) == Base(p) && Parent(q) == Shift(Parent(p), src, dst)
  {
    WithinCases(src, p);
    if Within(src, p) {
      var q := Shift(p, src, dst);
      assert q == dst + p[|src|..];
      assert p[|src|..][..|p| - |src| - 1] == Parent(p)[|src|..];
      assert Parent(q) == dst + Parent(p)[|src|..];
      assert forall k | 0 <= k < |q| :: q[k] == if k < |dst| then dst[k] else p[k - |dst| + |src|];
    }
  }

  lemma ShiftInjective(p: Path, q: Path, src: Path, dst: Path)
    requires !Within(dst, p) && !Within(dst, q)
    requires Shift(p, src, dst) == Shift(q, src, dst)
    ensures p == q
  {
    var u := Shift(p, src, dst);
    if Within(src, p) {
      assert u[..|dst|] == dst && p == src + u[|dst|..];
    }
    if Within(src, q) {
      assert u[..|dst|] == dst && q == src + u[|dst|..];
    }
  }

  lemma ShiftNowhere(p: Path, src: Path)
    ensures Shift(p, src, src) == p
  {
  }
}
