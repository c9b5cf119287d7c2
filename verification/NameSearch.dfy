/** SQL's ILIKE, as the VM search uses it: the search text between two `%`. */
module NameSearch {

  type Fold = char -> char

  /** Pattern matching with `%`, `_` and the default escape character, letters compared folded. */
  predicate Like(p: string, t: string, fold: Fold)
    decreases |p| + |t|
  {
    if p == "" then t == ""
    else if p[0] == '%' then Like(p[1..], t, fold) || (t != "" && Like(p, t[1..], fold))
    else if p[0] == '_' then t != "" && Like(p[1..], t[1..], fold)
    else if p[0] == '\\' then |p| > 1 && t != "" && fold(t[0]) == fold(p[1]) && Like(p[2..], t[1..], fold)
    else t != "" && fold(t[0]) == fold(p[0]) && Like(p[1..], t[1..], fold)
  }

  function Pattern(search: string): string {
    "%" + search + "%"
  }

  predicate Special(c: char) {
    c == '%' || c == '_' || c == '\\'
  }

  predicate Literal(s: string) {
    forall i :: 0 <= i < |s| ==> !Special(s[i])
  }

  ghost predicate StartsWith(t: string, s: string, fold: Fold) {
    |s| <= |t| && forall j :: 0 <= j < |s| ==> fold(t[j]) == fold(s[j])
  }

  /** `s` occurs in `t`, case ignored. */
  ghost predicate Contains(t: string, s: string, fold: Fold) {
    exists i :: 0 <= i <= |t| && StartsWith(t[i..], s, fold)
  }

  lemma {:induction false} AnyMatches(t: string, fold: Fold)
    ensures Like("%", t, fold)
  {
    if t != "" {
      AnyMatches(t[1..], fold);
    }
  }

  lemma {:induction false} LiteralThenAny(s: string, t: string, fold: Fold)
    requires Literal(s)
    ensures Like(s + "%", t, fold) <==> StartsWith(t, s, fold)
  {
    if s == "" {
      assert s + "%" == "%";
      AnyMatches(t, fold);
    } else if t != "" {
      assert !Special(s[0]);
      assert (s + "%")[1..] == s[1..] + "%";
      LiteralThenAny(s[1..], t[1..], fold);
      StartsStep(t, s, fold);
    } else {
      assert !Special(s[0]);
    }
  }

  lemma StartsStep(t: string, s: string, fold: Fold)
    requires s != "" && t != ""
    ensures StartsWith(t, s, fold) <==> fold(t[0]) == fold(s[0]) && StartsWith(t[1..], s[1..], fold)
  {
    if fold(t[0]) == fold(s[0]) && StartsWith(t[1..], s[1..], fold) {
      forall j | 0 <= j < |s|
        ensures fold(t[j]) == fold(s[j])
      {
        if j > 0 {
          assert t[j] == t[1..][j - 1] && s[j] == s[1..][j - 1];
        }
      }
    }
  }

  ghost predicate SomeSuffix(p: string, t: string, fold: Fold) {
    exists i :: 0 <= i <= |t| && Like(p, t[i..], fold)
  }

  lemma {:induction false} AnyThen(p: string, t: string, fold: Fold)
    ensures Like("%" + p, t, fold) <==> SomeSuffix(p, t, fold)
  {
    assert ("%" + p)[1..] == p;
    assert t[0..] == t;
    if t != "" {
      AnyThen(p, t[1..], fold);
      if SomeSuffix(p, t[1..], fold) {
        var i :| 0 <= i <= |t[1..]| && Like(p, t[1..][i..], fold);
        assert t[1..][i..] == t[i + 1..];
      }
      if SomeSuffix(p, t, fold) && !Like(p, t, fold) {
        var i :| 0 <= i <= |t| && Like(p, t[i..], fold);
        assert t[i..] == t[1..][i - 1..];
      }
    } else if SomeSuffix(p, t, fold) {
      var i :| 0 <= i <= |t| && Like(p, t[i..], fold);
      assert t[i..] == t;
    }
  }

  /** A search text without special characters finds the names it occurs in. */
  lemma LiteralSearch(s: string, t: string, fold: Fold)
    requires Literal(s)
    ensures Like(Pattern(s), t, fold) <==> Contains(t, s, fold)
  {
    AnyThen(s + "%", t, fold);
    assert Pattern(s) == "%" + (s + "%");
    forall i | 0 <= i <= |t|
      ensures Like(s + "%", t[i..], fold) <==> StartsWith(t[i..], s, fold)
    {
      LiteralThenAny(s, t[i..], fold);
    }
  }

  // ---------------------------------------------------------------- special characters

  /** A name the pattern finds, with `x` where the search text has `_`. */
  function Sample(s: string, x: char): string {
    if s == "" then ""
    else if s[0] == '%' then Sample(s[1..], x)
    else if s[0] == '_' then [x] + Sample(s[1..], x)
    else if s[0] == '\\' then if |s| == 1 then "%" else [s[1]] + Sample(s[2..], x)
    else [s[0]] + Sample(s[1..], x)
  }

  lemma {:induction false} SampleMatches(s: string, x: char, fold: Fold)
    ensures Like(s + "%", Sample(s, x), fold)
    decreases |s|
  {
    if s == "" {
      assert s + "%" == "%";
      AnyMatches("", fold);
    } else if s[0] == '\\' {
      if |s| == 1 {
        assert (s + "%")[2..] == "";
      } else {
        SampleMatches(s[2..], x, fold);
        assert (s + "%")[2..] == s[2..] + "%";
        assert Sample(s, x)[1..] == Sample(s[2..], x);
      }
    } else {
      SampleMatches(s[1..], x, fold);
      assert (s + "%")[1..] == s[1..] + "%";
      if s[0] != '%' {
        assert Sample(s, x)[1..] == Sample(s[1..], x);
      }
    }
  }

  lemma {:induction false} SampleIsShort(s: string, x: char)
    ensures |Sample(s, x)| <= |s|
    decreases |s|
  {
    if s != "" {
      SampleIsShort(s[1..], x);
      if |s| > 1 {
        SampleIsShort(s[2..], x);
      }
    }
  }

  lemma {:induction false} SampleDiffers(s: string, x: char, fold: Fold)
    requires fold(x) != fold('_') && fold('%') != fold('\\')
    requires !Literal(s)
    ensures !StartsWith(Sample(s, x), s, fold)
  {
    if s[0] == '%' {
      SampleIsShort(s[1..], x);
    } else if s[0] == '\\' {
      if |s| > 1 {
        SampleIsShort(s[2..], x);
      }
    } else if s[0] != '_' {
      assert !Literal(s[1..]);
      SampleDiffers(s[1..], x, fold);
      StartsStep(Sample(s, x), s, fold);
      assert Sample(s, x)[1..] == Sample(s[1..], x);
    }
  }

  /** The search finds exactly the names that hold the text if and only if the text has no `%`, `_` or `\`. */
  lemma SearchIsContainmentIff(s: string, x: char, fold: Fold)
    requires fold(x) != fold('_') && fold('%') != fold('\\')
    ensures (forall t :: Like(Pattern(s), t, fold) <==> Contains(t, s, fold)) <==> Literal(s)
  {
    if Literal(s) {
      forall t
        ensures Like(Pattern(s), t, fold) <==> Contains(t, s, fold)
      {
        LiteralSearch(s, t, fold);
      }
    } else {
      var t := Sample(s, x);
      SampleMatches(s, x, fold);
      assert t[0..] == t;
      AnyThen(s + "%", t, fold);
      assert Pattern(s) == "%" + (s + "%");
      SampleIsShort(s, x);
      SampleDiffers(s, x, fold);
      assert !Contains(t, s, fold);
    }
  }
}
