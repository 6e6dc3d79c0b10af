/** The `LIKE ... ESCAPE '\'` operator with which the catalogue selects subtrees. */
module SqlLike {
  import opened Paths

  /** ASCII case folding, as SQLite's LIKE does it. */
  function Fold(c: char): char {
    if 'A' <= c <= 'Z' then c - 'A' + 'a' else c
  }

  function FoldAll(s: string): (r: string)
    ensures |r| == |s|
    ensures forall i | 0 <= i < |s| :: r[i] == Fold(s[i])
  {
    if s == "" then "" else [Fold(s[0])] + FoldAll(s[1..])
  }

  function FoldPath(p: Path): (r: Path)
    ensures |r| == |p|
    ensures forall i | 0 <= i < |p| :: r[i] == FoldAll(p[i])
  {
    if p == [] then [] else [FoldAll(p[0])] + FoldPath(p[1..])
  }

  /** s matches the pattern: % any run, _ any one character, \ quotes the next one. */
  predicate Like(pattern: string, s: string)
    decreases |pattern|, |s|
  {
    if pattern == "" then
      s == ""
    else if pattern[0] == '%' then
      Like(pattern[1..], s) || (s != "" && Like(pattern, s[1..]))
    else if pattern[0] == '_' then
      s != "" && Like(pattern[1..], s[1..])
    else if pattern[0] == '\\' then
      |pattern| > 1 && s != "" && Fold(pattern[1]) == Fold(s[0]) && Like(pattern[2..], s[1..])
    else
      s != "" && Fold(pattern[0]) == Fold(s[0]) && Like(pattern[1..], s[1..])
  }

  function Quote(c: char): string {
    if c == '\\' || c == '%' || c == '_' then ['\\', c] else [c]
  }

  function LikePrefix(p: string): string {
    if p == "" then "" else Quote(p[0]) + LikePrefix(p[1..])
  }

  predicate StartsFolded(s: string, pre: string) {
    |pre| <= |s| && forall i | 0 <= i < |pre| :: Fold(s[i]) == Fold(pre[i])
  }

  lemma StartsFoldedStep(s: string, pre: string)
    requires pre != "" && s != ""
    ensures StartsFolded(s, pre) <==> Fold(s[0]) == Fold(pre[0]) && StartsFolded(s[1..], pre[1..])
  {
    var s', pre' := s[1..], pre[1..];
    assert forall i | 0 <= i < |pre'| && i < |s'| :: s'[i] == s[i + 1] && pre'[i] == pre[i + 1];
    if Fold(s[0]) == Fold(pre[0]) && StartsFolded(s', pre') {
      forall i | 0 <= i < |pre| ensures Fold(s[i]) == Fold(pre[i]) {
        if i > 0 {
          assert Fold(s'[i - 1]) == Fold(pre'[i - 1]);
        }
      }
    }
  }

  lemma LikeQuoted(c: char, tail: string, s: string)
    ensures Like(Quote(c) + tail, s) <==> s != "" && Fold(c) == Fold(s[0]) && Like(tail, s[1..])
  {
    assert (Quote(c) + tail)[|Quote(c)|..] == tail;
  }

  lemma {:induction false} QuotedPrefix(p: string, rest: string, s: string)
    ensures Like(LikePrefix(p) + rest, s) <==> StartsFolded(s, p) && Like(rest, s[|p|..])
  {
    if p == "" {
      assert LikePrefix(p) + rest == rest;
      assert s[0..] == s;
    } else {
      var tail := LikePrefix(p[1..]) + rest;
      assert LikePrefix(p) + rest == Quote(p[0]) + tail;
      LikeQuoted(p[0], tail, s);
      if s != "" {
        QuotedPrefix(p[1..], rest, s[1..]);
        StartsFoldedStep(s, p);
        assert |p| <= |s| ==> s[1..][|p| - 1..] == s[|p|..];
      }
    }
  }

  lemma {:induction false} PercentMatchesAll(s: string)
    ensures Like("%", s)
    decreases |s|
  {
    if s != "" {
      PercentMatchesAll(s[1..]);
    }
  }

  /** Escaping is exact: nothing in p acts as a wildcard. */
  lemma LikeIsFoldedPrefix(p: string, s: string)
    ensures Like(LikePrefix(p) + "/%", s) <==> StartsFolded(s, p + "/")
  {
    QuotedPrefix(p, "/%", s);
    assert forall i | 0 <= i < |p| :: (p + "/")[i] == p[i];
    assert (p + "/")[|p|] == '/';
    if |p| < |s| {
      var t := s[|p|..];
      PercentMatchesAll(t[1..]);
      assert "/%"[1..] == "%" && t[0] == s[|p|];
      assert Like("/%", t) <==> Fold(t[0]) == '/';
    }
  }

  lemma {:induction false} FoldSlashed(p: Path)
    ensures FoldAll(Slashed(p)) == Slashed(FoldPath(p))
  {
    if p != [] {
      FoldSlashed(p[1..]);
      var a, b := FoldAll(Slashed(p)), Slashed(FoldPath(p));
      assert FoldPath(p)[1..] == FoldPath(p[1..]);
      assert Slashed(p) == "/" + p[0] + Slashed(p[1..]);
      assert b == "/" + FoldAll(p[0]) + FoldAll(Slashed(p[1..]));
    }
  }

  lemma FoldKeepsNames(p: Path)
    requires IsPath(p)
    ensures IsPath(FoldPath(p))
  {
    forall i | 0 <= i < |p| ensures IsName(FoldPath(p)[i]) {
      var n := FoldPath(p)[i];
      assert IsName(p[i]);
      forall j | 0 <= j < |n| ensures n[j] != '/' {
        assert n[j] == Fold(p[i][j]);
      }
    }
  }

  /** What the pattern selects, in terms of components: everything strictly below a,
      or below a path that differs from a only by ASCII case. */
  lemma LikeSelects(a: Path, p: Path)
    requires IsPath(a) && IsPath(p)
    ensures Like(LikePrefix(Slashed(a)) + "/%", Slashed(p)) <==> Below(FoldPath(a), FoldPath(p))
  {
    LikeIsFoldedPrefix(Slashed(a), Slashed(p));
    FoldSlashed(a);
    FoldSlashed(p);
    FoldKeepsNames(a);
    FoldKeepsNames(p);
    PrefixIsBelow(FoldPath(a), FoldPath(p));
    var pre, s := Slashed(a) + "/", Slashed(p);
    var fpre, fs := Slashed(FoldPath(a)) + "/", Slashed(FoldPath(p));
    assert fpre == FoldAll(pre);
    assert StartsFolded(s, pre) <==> HasPrefix(fs, fpre) by {
      if HasPrefix(fs, fpre) {
        forall i | 0 <= i < |pre| ensures Fold(s[i]) == Fold(pre[i]) {
          assert fs[i] == fs[..|fpre|][i];
        }
      }
      if StartsFolded(s, pre) {
        assert fs[..|fpre|] == fpre;
      }
    }
  }

  // ---- the selection of the catalogue's statements ---------------------------------------------

  /** path LIKE likePrefix(a)/% ESCAPE '\', for the path p of a row. */
  predicate Selects(a: Path, p: Path) {
    Like(LikePrefix(Render(a)) + "/%", Render(p))
  }

  /** p lies strictly below a, or below a path that differs from a only by ASCII case. */
  predicate FoldsBelow(a: Path, p: Path) {
    Below(FoldPath(a), FoldPath(p))
  }

  /** What is selected; below the root it is nothing, since no path starts with two slashes. */
  lemma SelectsIs(a: Path, p: Path)
    requires IsPath(a) && IsPath(p)
    ensures Selects(a, p) <==> a != [] && FoldsBelow(a, p)
  {
    LikeIsFoldedPrefix(Render(a), Render(p));
    if a == [] {
      assert StartsFolded(Render(p), "//") ==> Fold(Render(p)[1]) == '/';
      assert p != [] ==> IsName(p[0]) && Render(p)[1] == p[0][0];
    } else if p == [] {
      assert |Render(a) + "/"| > 1;
    } else {
      LikeSelects(a, p);
    }
  }

  lemma SelectsNotRoot(a: Path)
    ensures !Selects(a, [])
  {
    LikeIsFoldedPrefix(Render(a), Render([]));
    assert |Render(a) + "/"| > 1;
  }

  lemma SelectsNotItself(a: Path)
    ensures !Selects(a, a)
  {
    LikeIsFoldedPrefix(Render(a), Render(a));
  }

  /** Two names that differ by case only. */
  lemma FooIsFOO()
    ensures FoldAll("FOO") == FoldAll("foo") && "FOO" != "foo"
  {
  }

  /** What lies in a directory is selected by its case variants. */
  lemma VariantSelects(n: Name)
    requires IsName(n)
    ensures Selects(["s", "foo"], ["s", "FOO", n]) && !Below(["s", "foo"], ["s", "FOO", n])
  {
    var a, p: Path := ["s", "foo"], ["s", "FOO", n];
    FooIsFOO();
    assert IsPath(a) && IsPath(p);
    SelectsIs(a, p);
    assert FoldPath(p)[..2] == FoldPath(a);
    assert p[..2][1] == "FOO";
  }

  lemma FoldAt(a: Path, k: nat)
    requires k <= |a|
    ensures FoldPath(a)[..k] == FoldPath(a[..k])
  {
  }

  lemma BelowFolds(a: Path, p: Path)
    requires Below(a, p)
    ensures FoldsBelow(a, p)
  {
    FoldAt(p, |a|);
  }

  /** In terms of the components: as many as a has, equal up to case, and more. */
  lemma FoldsBelowIs(a: Path, p: Path)
    ensures FoldsBelow(a, p) <==> |a| < |p| && FoldPath(p[..|a|]) == FoldPath(a)
  {
    if |a| < |p| {
      FoldAt(p, |a|);
    }
  }

  lemma FoldsBelowTrans(a: Path, p: Path, q: Path)
    requires FoldsBelow(a, p) && Within(p, q)
    ensures FoldsBelow(a, q)
  {
    FoldsBelowIs(a, p);
    FoldsBelowIs(a, q);
    assert q[..|a|] == q[..|p|][..|a|] == p[..|a|];
  }
}
