/** The order in which a directory walk visits paths, and the comparison that has to agree with it. */
module WalkOrder {
  import opened Paths

  // ---- names, compared character by character -------------------------------------------

  function CompareNames(a: Name, b: Name): (c: int)
    ensures c == 0 <==> a == b
    ensures -1 <= c <= 1
  {
    if a == "" then (if b == "" then 0 else -1)
    else if b == "" then 1
    else if a[0] < b[0] then -1
    else if a[0] > b[0] then 1
    else
      assert a == [a[0]] + a[1..] && b == [b[0]] + b[1..];
      CompareNames(a[1..], b[1..])
  }

  lemma {:induction false} NamesAntisymmetric(a: Name, b: Name)
    ensures CompareNames(a, b) == -CompareNames(b, a)
    decreases |a|
  {
    if a != "" && b != "" {
      NamesAntisymmetric(a[1..], b[1..]);
    }
  }

  lemma {:induction false} NamesTransitive(a: Name, b: Name, c: Name)
    requires CompareNames(a, b) < 0 && CompareNames(b, c) < 0
    ensures CompareNames(a, c) < 0
    decreases |a|
  {
    if a != "" && a[0] == b[0] == c[0] {
      NamesTransitive(a[1..], b[1..], c[1..]);
    }
  }

  /** Names are in the order of strings: where they first differ the smaller character comes first, and a prefix first
      of all. */
  lemma {:induction false} NamesAreLexical(a: Name, b: Name)
    ensures CompareNames(a, b) < 0 <==> exists k :: 0 <= k <= |a| && k <= |b| && FirstDiffer(a, b, k)
    decreases |a|
  {
    if a != "" && b != "" && a[0] == b[0] {
      NamesAreLexical(a[1..], b[1..]);
      forall k | 0 < k <= |a| && k <= |b| ensures FirstDiffer(a, b, k) <==> FirstDiffer(a[1..], b[1..], k - 1) {
        assert a[..k] == [a[0]] + a[1..][..k - 1] && b[..k] == [b[0]] + b[1..][..k - 1];
      }
      if k :| 0 <= k <= |a[1..]| && k <= |b[1..]| && FirstDiffer(a[1..], b[1..], k) {
        assert FirstDiffer(a, b, k + 1);
      }
    } else {
      assert a == "" && b != "" ==> FirstDiffer(a, b, 0);
      assert a != "" && b != "" && a[0] < b[0] ==> FirstDiffer(a, b, 0);
      forall k | 0 < k <= |a| && k <= |b| && a[0] != b[0] ensures !FirstDiffer(a, b, k) {
        assert a[..k][0] == a[0] && b[..k][0] == b[0];
      }
    }
  }

  /** a and b agree up to k, where a ends or has the smaller character. */
  predicate FirstDiffer(a: Name, b: Name, k: nat)
    requires k <= |a| && k <= |b|
  {
    a[..k] == b[..k] && k < |b| && (k == |a| || a[k] < b[k])
  }

  // ---- paths --------------------------------------------------------------------------------

  /** The comparison of fsapi: by the first differing component, else the shorter one first. */
  function WalkCompare(a: Path, b: Path): (c: int)
    ensures c == 0 <==> a == b
    ensures -1 <= c <= 1
  {
    if a == [] then (if b == [] then 0 else -1)
    else if b == [] then 1
    else if a[0] != b[0] then CompareNames(a[0], b[0])
    else
      assert a == [a[0]] + a[1..] && b == [b[0]] + b[1..];
      WalkCompare(a[1..], b[1..])
  }

  lemma {:induction false} CompareAntisymmetric(a: Path, b: Path)
    ensures WalkCompare(a, b) == -WalkCompare(b, a)
    decreases |a|
  {
    if a != [] && b != [] {
      NamesAntisymmetric(a[0], b[0]);
      CompareAntisymmetric(a[1..], b[1..]);
    }
  }

  /** With antisymmetry and "0 only if equal": a strict total order. */
  lemma {:induction false} CompareTransitive(a: Path, b: Path, c: Path)
    requires WalkCompare(a, b) < 0 && WalkCompare(b, c) < 0
    ensures WalkCompare(a, c) < 0
    decreases |a|
  {
    if a != [] {
      if a[0] == b[0] == c[0] {
        CompareTransitive(a[1..], b[1..], c[1..]);
      } else if a[0] != b[0] && b[0] != c[0] {
        NamesTransitive(a[0], b[0], c[0]);
        assert CompareNames(a[0], c[0]) < 0;
      }
    }
  }

  /** The loop of the source: the first index at which the components differ decides. */
  method WalkCompareLoop(a: Path, b: Path) returns (c: int)
    ensures c == WalkCompare(a, b)
  {
    var i := 0;
    while i < |a| && i < |b|
      invariant 0 <= i <= |a| && i <= |b|
      invariant WalkCompare(a, b) == WalkCompare(a[i..], b[i..])
    {
      if a[i] != b[i] {
        var n := CompareNames(a[i], b[i]);
        return if n < 0 then -1 else 1;
      }
      assert a[i..][1..] == a[i + 1..] && b[i..][1..] == b[i + 1..];
      i := i + 1;
    }
    if |a| < |b| { return -1; }
    if |a| > |b| { return 1; }
    return 0;
  }

  lemma {:induction false} CompareUnder(u: Path, a: Path, b: Path)
    ensures WalkCompare(u + a, u + b) == WalkCompare(a, b)
    decreases |u|
  {
    if u == [] {
      assert u + a == a && u + b == b;
    } else {
      assert (u + a)[1..] == u[1..] + a && (u + b)[1..] == u[1..] + b;
      CompareUnder(u[1..], a, b);
    }
  }

  /** A directory comes before its own contents. */
  lemma AncestorFirst(a: Path, p: Path)
    requires Below(a, p)
    ensures WalkCompare(a, p) < 0
  {
    assert a == a + [] && p == a + p[|a|..];
    CompareUnder(a, [], p[|a|..]);
  }

  /** Two subtrees hanging off different names of one directory do not interleave. */
  lemma SiblingsDecide(u: Path, m: Name, n: Name, a: Path, b: Path)
    requires CompareNames(m, n) < 0
    ensures WalkCompare(u + [m] + a, u + [n] + b) < 0
  {
    assert u + [m] + a == u + ([m] + a) && u + [n] + b == u + ([n] + b);
    CompareUnder(u, [m] + a, [n] + b);
  }

  lemma WithinStep(p: Path, q: Path)
    requires p != [] && q != [] && p[0] == q[0]
    ensures Within(p, q) <==> Within(p[1..], q[1..])
  {
    if |p| <= |q| {
      assert q[..|p|] == [q[0]] + q[1..][..|p| - 1];
      assert p == [p[0]] + p[1..];
    }
  }

  /** If p comes before q and is no ancestor of it, so does everything below p. */
  lemma {:induction false} SubtreeBefore(p: Path, x: Path, q: Path)
    requires WalkCompare(p, q) < 0 && !Within(p, q)
    ensures WalkCompare(p + x, q) < 0
    decreases |p|
  {
    if p != [] && q != [] && p[0] == q[0] {
      assert (p + x)[1..] == p[1..] + x;
      WithinStep(p, q);
      SubtreeBefore(p[1..], x, q[1..]);
    }
  }

  // ---- the strings the comparison is computed from ---------------------------------------------

  /** strings.Split(s, "/") */
  function Split(s: string): (r: seq<string>)
    ensures r != []
  {
    if s == "" then [""]
    else if s[0] == '/' then [""] + Split(s[1..])
    else
      var r := Split(s[1..]);
      [[s[0]] + r[0]] + r[1..]
  }

  /** strings.Trim(s, "/") */
  function Trim(s: string): string {
    if s == "" then s
    else if s[0] == '/' then Trim(s[1..])
    else if s[|s| - 1] == '/' then Trim(s[..|s| - 1])
    else s
  }

  function Components(s: string): seq<string> {
    if s == "/" then [] else Split(Trim(s))
  }

  lemma {:induction false} SplitName(n: Name, rest: string)
    requires '/' !in n
    ensures Split(n + "/" + rest) == [n] + Split(rest)
    ensures Split(n) == [n]
    decreases |n|
  {
    if n == "" {
      assert n + "/" + rest == "/" + rest;
      assert ("/" + rest)[1..] == rest;
    } else {
      SplitName(n[1..], rest);
      assert (n + "/" + rest)[1..] == n[1..] + "/" + rest;
      assert n == [n[0]] + n[1..];
    }
  }

  lemma SlashedStarts(p: Path)
    requires p != []
    ensures Slashed(p) != "" && Slashed(p)[0] == '/'
  {
  }

  lemma SplitTail(n: Name, tail: string)
    requires '/' !in n && tail != "" && tail[0] == '/'
    ensures Split(n + tail) == [n] + Split(tail[1..])
  {
    assert n + tail == n + "/" + tail[1..];
    SplitName(n, tail[1..]);
  }

  lemma {:induction false} SplitSlashed(p: Path)
    requires IsPath(p) && p != []
    ensures Slashed(p) != "" && Split(Slashed(p)[1..]) == p
    decreases |p|
  {
    var tail := Slashed(p[1..]);
    assert IsName(p[0]);
    assert Slashed(p)[1..] == p[0] + tail;
    if |p| == 1 {
      assert p[0] + tail == p[0];
      SplitName(p[0], "");
    } else {
      assert IsPath(p[1..]);
      SplitSlashed(p[1..]);
      SlashedStarts(p[1..]);
      SplitTail(p[0], tail);
    }
    assert p == [p[0]] + p[1..];
  }

  lemma {:induction false} SlashedEnds(p: Path)
    requires IsPath(p) && p != []
    ensures |Slashed(p)| >= 2 && Slashed(p)[0] == '/' && Slashed(p)[1] != '/' && Slashed(p)[|Slashed(p)| - 1] != '/'
    decreases |p|
  {
    assert IsName(p[0]);
    if |p| > 1 {
      assert IsPath(p[1..]);
      SlashedEnds(p[1..]);
    }
  }

  /** Splitting a rendered path gives its components back. */
  lemma ComponentsOfRender(p: Path)
    requires IsPath(p)
    ensures Components(Render(p)) == p
  {
    if p != [] {
      SlashedEnds(p);
      SplitSlashed(p);
      assert Trim(Slashed(p)) == Trim(Slashed(p)[1..]) == Slashed(p)[1..];
    }
  }

  /** isAncestor on strings. */
  predicate IsAncestor(dir: string, p: string) {
    if dir == "/" then p != "/" else HasPrefix(p, dir + "/")
  }

  lemma IsAncestorIsBelow(a: Path, p: Path)
    requires IsPath(a) && IsPath(p)
    ensures IsAncestor(Render(a), Render(p)) <==> Below(a, p)
  {
    if a != [] {
      SlashedEnds(a);
    }
    if p != [] {
      SlashedEnds(p);
      PrefixIsBelow(a, p);
    } else {
      assert |a| > 0 ==> |Slashed(a) + "/"| > 1;
    }
  }
}
