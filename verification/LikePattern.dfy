/**
 LIKE patterns built from user input (pkg/filter/filterable.go), matched as section 9.7.1 of the
 PostgreSQL manual describes: `%` any string, `_` any character, backslash quotes the next one.
 Letter case is compared through a folding function.
 */
module LikePattern {
  import opened Common

  type Fold = char -> char

  const Escape := '\\'

  predicate IsMeta(c: char) {
    c == '%' || c == '_' || c == Escape
  }

  /** A pattern that ends in a lone escape is an error in the database; here it matches nothing. */
  predicate Like(p: string, s: string, fold: Fold)
    decreases |p| + |s|
  {
    if p == "" then s == ""
    else if p[0] == '%' then Like(p[1..], s, fold) || (s != "" && Like(p, s[1..], fold))
    else if s == "" then false
    else if p[0] == '_' then Like(p[1..], s[1..], fold)
    else if p[0] == Escape then |p| > 1 && fold(p[1]) == fold(s[0]) && Like(p[2..], s[1..], fold)
    else fold(p[0]) == fold(s[0]) && Like(p[1..], s[1..], fold)
  }

  /** `EscapeLikeMetachars`: a single pass of the replacer. */
  function EscapeLikeMetachars(v: string): string {
    if v == "" then ""
    else (if IsMeta(v[0]) then [Escape, v[0]] else [v[0]]) + EscapeLikeMetachars(v[1..])
  }

  predicate SameText(a: string, b: string, fold: Fold) {
    |a| == |b| && forall i :: 0 <= i < |a| ==> fold(a[i]) == fold(b[i])
  }

  predicate TextAt(s: string, v: string, k: nat, fold: Fold) {
    k + |v| <= |s| && SameText(v, s[k..k + |v|], fold)
  }

  predicate ContainsText(s: string, v: string, fold: Fold) {
    exists k :: 0 <= k <= |s| && TextAt(s, v, k, fold)
  }

  predicate HasPrefix(s: string, v: string, fold: Fold) {
    |v| <= |s| && SameText(v, s[..|v|], fold)
  }

  predicate HasSuffix(s: string, v: string, fold: Fold) {
    |v| <= |s| && SameText(v, s[|s| - |v|..], fold)
  }

  /** The escaped text consumes exactly itself, whatever follows it in the pattern. */
  lemma {:induction false} EscapedIsLiteral(v: string, q: string, s: string, fold: Fold)
    ensures Like(EscapeLikeMetachars(v) + q, s, fold) <==> HasPrefix(s, v, fold) && Like(q, s[|v|..], fold)
  {
    var p := EscapeLikeMetachars(v) + q;
    if v == "" {
      assert p == q && s[0..] == s;
    } else if s == "" {
      assert p[0] != '%';
    } else {
      var rest := EscapeLikeMetachars(v[1..]) + q;
      EscapedIsLiteral(v[1..], q, s[1..], fold);
      if IsMeta(v[0]) {
        assert p[0] == Escape && p[1] == v[0] && p[2..] == rest;
      } else {
        assert p[0] == v[0] && p[1..] == rest;
      }
      assert Like(p, s, fold) <==> fold(v[0]) == fold(s[0]) && Like(rest, s[1..], fold);
      if |v| <= |s| {
        assert s[1..][|v| - 1..] == s[|v|..];
        SameTextStep(v, s[..|v|], fold);
        assert s[1..][..|v| - 1] == s[..|v|][1..];
      }
    }
  }

  lemma SameTextStep(a: string, b: string, fold: Fold)
    requires a != "" && b != ""
    ensures SameText(a, b, fold) <==> fold(a[0]) == fold(b[0]) && SameText(a[1..], b[1..], fold)
  {
    if fold(a[0]) == fold(b[0]) && SameText(a[1..], b[1..], fold) {
      forall i | 0 <= i < |a| ensures fold(a[i]) == fold(b[i]) {
        if i > 0 { assert a[1..][i - 1] == a[i] && b[1..][i - 1] == b[i]; }
      }
    }
  }

  lemma {:induction false} PercentSkips(q: string, s: string, fold: Fold)
    ensures Like("%" + q, s, fold) <==> exists k :: 0 <= k <= |s| && Like(q, s[k..], fold)
  {
    assert ("%" + q)[1..] == q && s[0..] == s;
    if s != "" {
      PercentSkips(q, s[1..], fold);
      if k :| 0 <= k <= |s| && Like(q, s[k..], fold) && k > 0 {
        assert s[1..][k - 1..] == s[k..];
      }
      if k :| 0 <= k <= |s[1..]| && Like(q, s[1..][k..], fold) {
        assert s[1..][k..] == s[k + 1..];
      }
    }
  }

  lemma PercentMatchesAll(s: string, fold: Fold)
    ensures Like("%", s, fold)
  {
    assert "%" + "" == "%";
    PercentSkips("", s, fold);
    assert Like("", s[|s|..], fold);
  }

  /** The three patterns mean what the operators say. */
  lemma StartsWithPattern(v: string, s: string, fold: Fold)
    ensures Like(EscapeLikeMetachars(v) + "%", s, fold) <==> HasPrefix(s, v, fold)
  {
    EscapedIsLiteral(v, "%", s, fold);
    if |v| <= |s| { PercentMatchesAll(s[|v|..], fold); }
  }

  lemma ContainsPattern(v: string, s: string, fold: Fold)
    ensures Like("%" + EscapeLikeMetachars(v) + "%", s, fold) <==> ContainsText(s, v, fold)
  {
    var q := EscapeLikeMetachars(v) + "%";
    assert "%" + EscapeLikeMetachars(v) + "%" == "%" + q;
    PercentSkips(q, s, fold);
    forall k | 0 <= k <= |s| ensures Like(q, s[k..], fold) <==> TextAt(s, v, k, fold) {
      StartsWithPattern(v, s[k..], fold);
      if k + |v| <= |s| { assert s[k..][..|v|] == s[k..k + |v|]; }
    }
  }

  lemma EndsWithPattern(v: string, s: string, fold: Fold)
    ensures Like("%" + EscapeLikeMetachars(v), s, fold) <==> HasSuffix(s, v, fold)
  {
    var q := EscapeLikeMetachars(v);
    assert q + "" == q;
    PercentSkips(q, s, fold);
    forall k | 0 <= k <= |s| ensures Like(q, s[k..], fold) <==> k == |s| - |v| && SameText(v, s[k..], fold) {
      EscapedIsLiteral(v, "", s[k..], fold);
      if |v| <= |s[k..]| {
        assert s[k..][|v|..] == "" <==> k == |s| - |v|;
        if k == |s| - |v| { assert s[k..][..|v|] == s[k..]; }
      }
    }
  }

  // ---------------------------------------------------------------------------------------
  // The unescaped BigQuery pattern

  function ToLower(s: string, lower: Fold): string {
    MapSeq(s, lower)
  }

  /** Lower-casing is stable and leaves the metacharacters alone. */
  ghost predicate IsLowering(lower: Fold) {
    forall c :: lower(lower(c)) == lower(c) && (forall m :: IsMeta(m) ==> (lower(c) == m <==> c == m))
  }

  function Exact(c: char): char { c }

  predicate HasMeta(v: string) {
    exists i :: 0 <= i < |v| && IsMeta(v[i])
  }

  lemma {:induction false} NothingToEscape(v: string)
    requires !HasMeta(v)
    ensures EscapeLikeMetachars(v) == v
  {
    if v != "" {
      assert !IsMeta(v[0]);
      forall i | 0 <= i < |v[1..]| ensures !IsMeta(v[1..][i]) { assert v[1..][i] == v[i + 1]; }
      NothingToEscape(v[1..]);
    }
  }

  /** A string that the pattern `u%` matches although `u` is not in it. */
  function Decoy(u: string): string {
    if u == "" then ""
    else if u[0] == '%' then Decoy(u[1..])
    else if u[0] == '_' then "%" + Decoy(u[1..])
    else if u[0] == Escape then if |u| == 1 then "%" else [u[1]] + Decoy(u[2..])
    else [u[0]] + Decoy(u[1..])
  }

  lemma {:induction false} DecoyMatches(u: string)
    ensures Like(u + "%", Decoy(u), Exact)
  {
    var p, s := u + "%", Decoy(u);
    if u == "" {
      PercentMatchesAll("", Exact);
      assert p == "%";
    } else if u[0] == Escape {
      if |u| == 1 {
        assert p[2..] == "" && s[1..] == "";
        assert Like(p[2..], s[1..], Exact);
      } else {
        DecoyMatches(u[2..]);
        assert p[2..] == u[2..] + "%" && s[1..] == Decoy(u[2..]);
      }
    } else {
      DecoyMatches(u[1..]);
      assert p[1..] == u[1..] + "%";
      if u[0] != '%' { assert s[1..] == Decoy(u[1..]); }
    }
  }

  lemma {:induction false} DecoyDiffers(u: string)
    ensures |Decoy(u)| <= |u|
    ensures HasMeta(u) ==> Decoy(u) != u
    ensures forall i :: 0 <= i < |Decoy(u)| ==> Decoy(u)[i] == '%' || Decoy(u)[i] in u
  {
    if u != "" {
      if u[0] == Escape {
        if |u| > 1 { DecoyDiffers(u[2..]); }
      } else {
        DecoyDiffers(u[1..]);
        if !IsMeta(u[0]) {
          assert Decoy(u)[1..] == Decoy(u[1..]);
          if HasMeta(u) {
            var i :| 0 <= i < |u| && IsMeta(u[i]);
            assert u[1..][i - 1] == u[i];
          }
        }
      }
    }
  }

  /** The pattern ends in an escape that quotes nothing. */
  predicate EndsInEscape(p: string) {
    if p == "" then false
    else if p[0] == Escape then |p| == 1 || EndsInEscape(p[2..])
    else EndsInEscape(p[1..])
  }

  lemma {:induction false} EndsInEscapeNeverMatches(p: string, s: string)
    requires EndsInEscape(p)
    ensures !Like(p, s, Exact)
    decreases |p| + |s|
  {
    if p[0] == '%' {
      EndsInEscapeNeverMatches(p[1..], s);
      if s != "" { EndsInEscapeNeverMatches(p, s[1..]); }
    } else if s != "" && p[0] == Escape {
      if |p| > 1 { EndsInEscapeNeverMatches(p[2..], s[1..]); }
    } else if s != "" {
      EndsInEscapeNeverMatches(p[1..], s[1..]);
    }
  }

  lemma {:induction false} DecoyMatchesWhole(u: string)
    requires !EndsInEscape(u)
    ensures Like(u, Decoy(u), Exact)
  {
    if u != "" {
      var s := Decoy(u);
      if u[0] == Escape {
        DecoyMatchesWhole(u[2..]);
        assert s[1..] == Decoy(u[2..]);
      } else {
        DecoyMatchesWhole(u[1..]);
        if u[0] != '%' { assert s[1..] == Decoy(u[1..]); }
      }
    }
  }

  // ---------------------------------------------------------------------------------------
  // The three forms

  datatype Form = Anywhere | AtStart | AtEnd

  function FormPattern(form: Form, text: string): string {
    match form
    case Anywhere => "%" + text + "%"
    case AtStart => text + "%"
    case AtEnd => "%" + text
  }

  predicate Matches(form: Form, s: string, v: string, fold: Fold) {
    match form
    case Anywhere => ContainsText(s, v, fold)
    case AtStart => HasPrefix(s, v, fold)
    case AtEnd => HasSuffix(s, v, fold)
  }

  lemma EscapedFormMatches(form: Form, v: string, s: string, fold: Fold)
    ensures Like(FormPattern(form, EscapeLikeMetachars(v)), s, fold) <==> Matches(form, s, v, fold)
  {
    StartsWithPattern(v, s, fold);
    EndsWithPattern(v, s, fold);
    ContainsPattern(v, s, fold);
  }

  /** `LOWER(field) LIKE` the form of the lower-cased value. */
  predicate BigQueryMatches(form: Form, s: string, v: string, lower: Fold) {
    Like(FormPattern(form, ToLower(v, lower)), ToLower(s, lower), Exact)
  }

  lemma SameTextLowered(v: string, s: string, lower: Fold)
    ensures SameText(v, s, lower) <==> SameText(ToLower(v, lower), ToLower(s, lower), Exact)
  {
    if |v| == |s| {
      forall i | 0 <= i < |v| ensures lower(v[i]) == lower(s[i]) <==> ToLower(v, lower)[i] == ToLower(s, lower)[i] {}
    }
  }

  lemma LoweredMatches(form: Form, v: string, s: string, lower: Fold)
    ensures Matches(form, s, v, lower) <==> Matches(form, ToLower(s, lower), ToLower(v, lower), Exact)
  {
    var s', v' := ToLower(s, lower), ToLower(v, lower);
    forall k | 0 <= k <= |s| ensures TextAt(s, v, k, lower) <==> TextAt(s', v', k, Exact) {
      if k + |v| <= |s| {
        SameTextLowered(v, s[k..k + |v|], lower);
        assert ToLower(s[k..k + |v|], lower) == s'[k..k + |v|];
      }
    }
    if |v| <= |s| {
      SameTextLowered(v, s[..|v|], lower);
      SameTextLowered(v, s[|s| - |v|..], lower);
      assert ToLower(s[..|v|], lower) == s'[..|v|] && ToLower(s[|s| - |v|..], lower) == s'[|s| - |v|..];
    }
  }

  /** A shorter or equally long text that differs holds the value nowhere. */
  lemma OtherTextHoldsNothing(form: Form, d: string, u: string)
    requires |d| <= |u| && d != u
    ensures !Matches(form, d, u, Exact)
  {
    if |d| == |u| { ExactTextIsEqual(u, d); }
    forall k | 0 <= k <= |d| ensures !TextAt(d, u, k, Exact) {
      if k + |u| <= |d| { assert d[k..k + |u|] == d; }
    }
    if |u| <= |d| { assert d[..|u|] == d && d[|d| - |u|..] == d; }
  }

  lemma DecoyFitsForm(form: Form, u: string)
    requires form.AtEnd? ==> !EndsInEscape(u)
    ensures Like(FormPattern(form, u), Decoy(u), Exact)
  {
    var d := Decoy(u);
    assert d[0..] == d;
    match form
    case AtStart => DecoyMatches(u);
    case Anywhere =>
      DecoyMatches(u);
      assert "%" + u + "%" == "%" + (u + "%");
      PercentSkips(u + "%", d, Exact);
    case AtEnd =>
      DecoyMatchesWhole(u);
      PercentSkips(u, d, Exact);
  }

  /** A text that tells BigQuery's form from the test it stands for. */
  lemma BigQueryFormDiffers(form: Form, v: string, lower: Fold) returns (s: string)
    requires IsLowering(lower) && HasMeta(v)
    ensures BigQueryMatches(form, s, v, lower) <==> !Matches(form, s, v, lower)
  {
    var u := ToLower(v, lower);
    LoweredHasMeta(v, lower);
    if form.AtEnd? && EndsInEscape(u) {
      s := v;
      var p := "%" + u;
      assert p[1..] == u;
      EndsInEscapeNeverMatches(p, u);
      assert v[|v| - |v|..] == v;
    } else {
      s := Decoy(u);
      DecoyFitsForm(form, u);
      DecoyDiffers(u);
      DecoyIsLower(v, lower);
      OtherTextHoldsNothing(form, s, u);
      LoweredMatches(form, v, s, lower);
    }
  }

  lemma LoweredHasMeta(v: string, lower: Fold)
    requires IsLowering(lower)
    ensures HasMeta(ToLower(v, lower)) <==> HasMeta(v)
  {
    var u := ToLower(v, lower);
    if i :| 0 <= i < |v| && IsMeta(v[i]) { assert IsMeta(u[i]); }
    if i :| 0 <= i < |u| && IsMeta(u[i]) { assert IsMeta(v[i]); }
  }

  lemma BigQueryFormAgrees(form: Form, v: string, s: string, lower: Fold)
    requires IsLowering(lower) && !HasMeta(v)
    ensures BigQueryMatches(form, s, v, lower) <==> Matches(form, s, v, lower)
  {
    LoweredHasMeta(v, lower);
    NothingToEscape(ToLower(v, lower));
    EscapedFormMatches(form, ToLower(v, lower), ToLower(s, lower), Exact);
    LoweredMatches(form, v, s, lower);
  }

  /**
   In each form BigQuery's unescaped pattern is the case-insensitive test for every text exactly when
   the value holds no metacharacter.
   */
  lemma BigQueryFormIff(form: Form, v: string, lower: Fold)
    requires IsLowering(lower)
    ensures (forall s :: BigQueryMatches(form, s, v, lower) <==> Matches(form, s, v, lower)) <==> !HasMeta(v)
  {
    if HasMeta(v) {
      var s := BigQueryFormDiffers(form, v, lower);
    } else {
      forall s ensures BigQueryMatches(form, s, v, lower) <==> Matches(form, s, v, lower) {
        BigQueryFormAgrees(form, v, s, lower);
      }
    }
  }

  lemma ExactTextIsEqual(a: string, b: string)
    ensures SameText(a, b, Exact) <==> a == b
  {
    if SameText(a, b, Exact) {
      forall i | 0 <= i < |a| ensures a[i] == b[i] { assert Exact(a[i]) == Exact(b[i]); }
    }
  }

  lemma DecoyIsLower(v: string, lower: Fold)
    requires IsLowering(lower)
    ensures var d := Decoy(ToLower(v, lower)); ToLower(d, lower) == d
  {
    var u := ToLower(v, lower);
    var d := Decoy(u);
    DecoyDiffers(u);
    forall i | 0 <= i < |d| ensures lower(d[i]) == d[i] {
      if d[i] in u {
        var j :| 0 <= j < |u| && u[j] == d[i];
        assert u[j] == lower(v[j]);
      } else {
        assert IsMeta('%');
      }
    }
  }
}
