/** Precedence of pre-releases in section 11 of Semantic Versioning 2.0.0, against the text
    comparison of internal/commands/upgrade.go. */
module Precedence {
  import opened Ordering
  import opened Text
  import opened Versions
  import Decimal

  // ---- Section 11 -----------------------------------------------------------

  predicate IsIdentifierChar(c: char) { IsLetter(c) || IsDigit(c) || c == '-' }

  /** Section 9: not empty, letters, digits and hyphens; no leading zeros in a number. */
  predicate IsIdentifier(s: string) {
    && s != "" && (forall c :: c in s ==> IsIdentifierChar(c))
    && (IsDigits(s) ==> s == "0" || s[0] != '0')
  }

  predicate AreIdentifiers(ids: seq<string>) { forall id :: id in ids ==> IsIdentifier(id) }

  /** A pre-release, or none. */
  predicate IsPreRelease(pre: string) { pre == "" || AreIdentifiers(Split(pre, '.')) }

  /** Numbers by value, below everything else; the rest in ASCII order. */
  predicate IdentifierBefore(u: string, v: string) {
    if IsDigits(u) && IsDigits(v) then Decimal.Value(u) < Decimal.Value(v)
    else if IsDigits(u) then true
    else if IsDigits(v) then false
    else Less(u, v)
  }

  /** The first differing identifiers decide; of two lists that agree so far the longer is higher. */
  predicate ListBefore(us: seq<string>, vs: seq<string>) {
    if vs == [] then false
    else if us == [] then true
    else if us[0] == vs[0] then ListBefore(us[1..], vs[1..])
    else IdentifierBefore(us[0], vs[0])
  }

  /** A version without pre-release is above all its pre-releases. */
  predicate HasLowerPrecedence(x: string, y: string) {
    if x == "" then false
    else if y == "" then true
    else ListBefore(Split(x, '.'), Split(y, '.'))
  }

  // ---- Where the text order agrees ------------------------------------------

  /** `short` continues as `long` does not: the dot after it stands above the hyphen in `long`. */
  predicate DotMeetsHyphen(short: string, more: bool, long: string)
    requires short < long
  {
    more && long[|short|] == '-'
  }

  /** The text order puts the first differing identifiers, with or without others after them,
      in their order of precedence. */
  predicate AgreeAt(u: string, moreU: bool, v: string, moreV: bool) {
    if u < v then !DotMeetsHyphen(u, moreU, v)
    else if v < u then !DotMeetsHyphen(v, moreV, u)
    else if IsDigits(u) && IsDigits(v) then |u| == |v| || (|u| < |v| <==> Less(u, v))
    else if IsDigits(u) then Less(u, v)
    else if IsDigits(v) then Less(v, u)
    else true
  }

  predicate Agree(us: seq<string>, vs: seq<string>) {
    if us == [] || vs == [] then true
    else if us[0] == vs[0] then Agree(us[1..], vs[1..])
    else AgreeAt(us[0], |us| > 1, vs[0], |vs| > 1)
  }

  // ---- Text and identifiers -------------------------------------------------

  /** The identifiers with their dots. */
  function TextOf(ids: seq<string>): string
    decreases |ids|, 0
  {
    if ids == [] then "" else ids[0] + Rest(ids[1..])
  }

  function Rest(ids: seq<string>): string
    decreases |ids|, 1
  {
    if ids == [] then "" else "." + TextOf(ids)
  }

  lemma {:induction false} SplitReadsBack(s: string)
    ensures TextOf(Split(s, '.')) == s
  {
    var parts := Split(s, '.');
    if s != "" {
      SplitReadsBack(s[1..]);
      var rest := Split(s[1..], '.');
      if s[0] == '.' {
        assert parts[1..] == rest;
      } else {
        assert parts[1..] == rest[1..];
        assert s == [s[0]] + (rest[0] + Rest(rest[1..]));
      }
    } else {
      assert parts[1..] == [];
    }
  }

  // ---- Text order -----------------------------------------------------------

  lemma {:induction false} LessAfterPrefix(p: string, a: string, b: string)
    ensures Less(p + a, p + b) <==> Less(a, b)
  {
    if p == "" {
      assert p + a == a && p + b == b;
    } else {
      LessAfterPrefix(p[1..], a, b);
      assert (p + a)[1..] == p[1..] + a && (p + b)[1..] == p[1..] + b;
      assert p + a == p + b <==> p[1..] + a == p[1..] + b by {
        if p[1..] + a == p[1..] + b { assert p + a == [p[0]] + (p[1..] + a) == [p[0]] + (p[1..] + b) == p + b; }
      }
    }
  }

  lemma PrefixOfTail(u: string, v: string)
    requires u != "" && v != "" && u[0] == v[0]
    ensures u[1..] <= v[1..] ==> u <= v
  {
    assert u == [u[0]] + u[1..] && v == [v[0]] + v[1..];
  }

  /** Where neither text begins the other one, what follows makes no difference. */
  lemma {:induction false} LessBeforeSuffix(u: string, a: string, v: string, b: string)
    requires !(u <= v) && !(v <= u)
    ensures Less(u + a, v + b) <==> Less(u, v)
    ensures Less(u, v) <==> !Less(v, u)
  {
    assert u != "" && v != "";
    if u[0] == v[0] {
      assert u == [u[0]] + u[1..] && v == [v[0]] + v[1..];
      PrefixOfTail(u, v);
      PrefixOfTail(v, u);
      LessBeforeSuffix(u[1..], a, v[1..], b);
      assert u + a == [u[0]] + (u[1..] + a) && v + b == [u[0]] + (v[1..] + b);
      LessAfterPrefix([u[0]], u[1..] + a, v[1..] + b);
      LessAfterPrefix([u[0]], u[1..], v[1..]);
      LessAfterPrefix([u[0]], v[1..], u[1..]);
    }
  }

  lemma LessByFirst(a: string, b: string)
    ensures a == "" ==> (Less(a, b) <==> b != "")
    ensures b == "" ==> !Less(a, b)
    ensures a != "" && b != "" && a[0] != b[0] ==> (Less(a, b) <==> a[0] < b[0])
  {
  }

  /** An identifier against a longer one that begins with it. */
  lemma ShorterIdentifier(short: string, tail: seq<string>, long: string, other: seq<string>)
    requires IsIdentifier(long) && short < long
    ensures Less(short + Rest(tail), long + Rest(other)) <==> !DotMeetsHyphen(short, tail != [], long)
    ensures Less(long + Rest(other), short + Rest(tail)) <==> DotMeetsHyphen(short, tail != [], long)
  {
    var a, b := Rest(tail), long[|short|..] + Rest(other);
    assert long == short + long[|short|..];
    assert long + Rest(other) == short + b;
    LessAfterPrefix(short, a, b);
    LessAfterPrefix(short, b, a);
    assert b[0] == long[|short|] && IsIdentifierChar(long[|short|]);
    LessByFirst(a, b);
    LessByFirst(b, a);
    hide Less;
  }

  // ---- Numbers --------------------------------------------------------------

  function Power(n: nat): (r: int)
    ensures r >= 1
  {
    if n == 0 then 1 else 10 * Power(n - 1)
  }

  lemma {:induction false} ValueBounds(s: string)
    requires forall c :: c in s ==> IsDigit(c)
    ensures 0 <= Decimal.Value(s) < Power(|s|)
    ensures s != "" && s[0] != '0' ==> Power(|s| - 1) <= Decimal.Value(s)
  {
    if s != "" {
      var n := |s| - 1;
      assert s[n] in s;
      forall c | c in s[..n] ensures IsDigit(c) { assert c in s; }
      ValueBounds(s[..n]);
      if n > 0 { assert s[..n][0] == s[0]; } else { assert s[..n] == ""; }
    }
  }

  lemma {:induction false} PowerGrows(m: nat, n: nat)
    requires m <= n
    ensures Power(m) <= Power(n)
  {
    if m < n {
      PowerGrows(m, n - 1);
    }
  }

  lemma MoreDigitsAreMore(u: string, v: string)
    requires IsIdentifier(u) && IsIdentifier(v) && IsDigits(u) && IsDigits(v) && |u| < |v|
    ensures Decimal.Value(u) < Decimal.Value(v)
  {
    ValueBounds(u);
    ValueBounds(v);
    PowerGrows(|u|, |v| - 1);
  }

  /** Of two numbers with equally many digits the text order finds the smaller. */
  lemma {:induction false} SameLengthNumbers(u: string, v: string)
    requires |u| == |v| && (forall c :: c in u ==> IsDigit(c)) && forall c :: c in v ==> IsDigit(c)
    ensures Less(u, v) <==> Decimal.Value(u) < Decimal.Value(v)
    ensures u == v <==> Decimal.Value(u) == Decimal.Value(v)
  {
    if u != "" {
      var n := |u| - 1;
      var u', v', c, d := u[..n], v[..n], u[n], v[n];
      assert c in u && d in v;
      assert u == u' + [c] && v == v' + [d];
      forall x | x in u' ensures IsDigit(x) { assert x in u; }
      forall x | x in v' ensures IsDigit(x) { assert x in v; }
      SameLengthNumbers(u', v');
      if u' == v' {
        LessAfterPrefix(u', [c], [d]);
        LessByFirst([c], [d]);
      } else {
        LessBeforeSuffix(u', [c], v', [d]);
      }
      hide Less;
    }
  }

  // ---- Agreement ------------------------------------------------------------

  lemma PrefixIsNoText(u: string, v: string)
    requires u < v && IsDigits(v) && u != ""
    ensures IsDigits(u)
  {
    forall c | c in u ensures '0' <= c <= '9' {
      var i :| 0 <= i < |u| && u[i] == c;
      assert v[i] == c && v[i] in v;
    }
  }

  /** A shorter identifier precedes the longer one that begins with it. */
  lemma PrefixComesFirst(u: string, v: string)
    requires IsIdentifier(u) && IsIdentifier(v) && u < v
    ensures IdentifierBefore(u, v) && !IdentifierBefore(v, u)
  {
    if IsDigits(v) {
      PrefixIsNoText(u, v);
    }
    if IsDigits(u) && IsDigits(v) {
      MoreDigitsAreMore(u, v);
    } else if !IsDigits(u) {
      assert v == u + v[|u|..] && u == u + "";
      LessAfterPrefix(u, "", v[|u|..]);
      LessAfterPrefix(u, v[|u|..], "");
      LessByFirst("", v[|u|..]);
      LessByFirst(v[|u|..], "");
    }
    hide Less, Decimal.Value;
  }

  lemma UnlikeIdentifiers(u: string, v: string)
    requires IsIdentifier(u) && IsIdentifier(v) && !(u <= v) && !(v <= u)
    ensures (Less(u, v) <==> IdentifierBefore(u, v)) <==> AgreeAt(u, true, v, true)
    ensures AgreeAt(u, true, v, true) == AgreeAt(u, false, v, false) == AgreeAt(u, true, v, false) ==
        AgreeAt(u, false, v, true)
  {
    LessBeforeSuffix(u, "", v, "");
    if IsDigits(u) && IsDigits(v) {
      if |u| == |v| {
        SameLengthNumbers(u, v);
      } else if |u| < |v| {
        MoreDigitsAreMore(u, v);
      } else {
        MoreDigitsAreMore(v, u);
      }
    }
    hide Less, Decimal.Value;
  }

  /** At the first differing identifiers. */
  lemma AgreeAtFirst(us: seq<string>, vs: seq<string>)
    requires AreIdentifiers(us) && AreIdentifiers(vs) && us != [] && vs != [] && us[0] != vs[0]
    ensures (Less(TextOf(us), TextOf(vs)) <==> ListBefore(us, vs)) <==> Agree(us, vs)
  {
    var u, v := us[0], vs[0];
    assert u in us && v in vs;
    hide Less, IdentifierBefore, Rest, IsIdentifier;
    if u < v {
      ShorterIdentifier(u, us[1..], v, vs[1..]);
      PrefixComesFirst(u, v);
    } else if v < u {
      ShorterIdentifier(v, vs[1..], u, us[1..]);
      PrefixComesFirst(v, u);
    } else {
      assert !(u <= v) && !(v <= u);
      LessBeforeSuffix(u, Rest(us[1..]), v, Rest(vs[1..]));
      UnlikeIdentifiers(u, v);
    }
  }

  lemma {:induction false} ListsAgreeIff(us: seq<string>, vs: seq<string>)
    requires AreIdentifiers(us) && AreIdentifiers(vs)
    ensures (Less(TextOf(us), TextOf(vs)) <==> ListBefore(us, vs)) <==> Agree(us, vs)
  {
    if us == [] || vs == [] {
      assert us == [] && vs != [] ==> TextOf(vs) != "" by {
        if vs != [] { assert vs[0] in vs; }
      }
      LessByFirst(TextOf(us), TextOf(vs));
    } else if us[0] == vs[0] {
      var us', vs' := us[1..], vs[1..];
      ListsAgreeIff(us', vs');
      LessAfterPrefix(us[0], Rest(us'), Rest(vs'));
      LessAfterPrefix(".", TextOf(us'), TextOf(vs'));
      LessByFirst(Rest(us'), Rest(vs'));
      hide Less, AgreeAt, IdentifierBefore;
    } else {
      AgreeAtFirst(us, vs);
    }
  }

  /** The code orders two pre-releases of one core as section 11 does exactly when the text
      order finds the order of their first differing identifiers: of two numbers the one with
      fewer digits is also first in the text, a number is before other text, and no dot after
      an identifier meets a hyphen in the one that continues it. */
  lemma AgreesWithSectionElevenIff(x: string, y: string)
    requires IsPreRelease(x) && IsPreRelease(y)
    ensures (PreBefore(x, y) <==> HasLowerPrecedence(x, y)) <==>
              x == "" || y == "" || Agree(Split(x, '.'), Split(y, '.'))
  {
    if x != "" && y != "" {
      SplitReadsBack(x);
      SplitReadsBack(y);
      ListsAgreeIff(Split(x, '.'), Split(y, '.'));
    }
    hide *;
  }

  lemma SameCoreBefore(core: seq<string>, x: string, y: string)
    ensures Before(Version(core, x), Version(core, y)) <==> PreBefore(x, y)
  {
    CompareIsAntisymmetric(core, core, 0);
    hide CompareFrom, PreBefore;
  }

  /** Such pairs exist.  A longer number whose text comes first: rc.10 is taken for older than rc.9. */
  lemma PreReleaseNumbersCompareAsText(core: seq<string>, word: string, u: string, v: string)
    requires '.' !in word && IsIdentifier(u) && IsIdentifier(v) && IsDigits(u) && IsDigits(v)
    requires |u| < |v| && Less(v, u)
    ensures Before(Version(core, word + "." + v), Version(core, word + "." + u))
    ensures HasLowerPrecedence(word + "." + u, word + "." + v) && !HasLowerPrecedence(word + "." + v, word + "." + u)
  {
    var x, y := word + "." + u, word + "." + v;
    assert '.' !in u && '.' !in v;
    SameCoreBefore(core, y, x);
    SplitAfter(word, u, '.');
    SplitAfter(word, v, '.');
    SplitAfter(u, "", '.');
    SplitAfter(v, "", '.');
    LessAfterPrefix(word + ".", v, u);
    MoreDigitsAreMore(u, v);
    hide Before, Less, IsDigits, IsIdentifier, Split, Decimal.Value;
    assert [word, u][1..] == [u] && [word, v][1..] == [v];
    assert Split(x, '.') == [word, u] && Split(y, '.') == [word, v];
    assert ListBefore([u], [v]) && !ListBefore([v], [u]);
  }

  lemma HyphenBelowDot(word: string, a: string, b: string)
    ensures Less(word + "-" + a, word + "." + b)
  {
    assert word + "-" + a == word + ("-" + a) && word + "." + b == word + ("." + b);
    LessAfterPrefix(word, "-" + a, "." + b);
    LessByFirst("-" + a, "." + b);
    hide Less;
  }

  /** A hyphen where the other pre-release has a dot: alpha-x is taken for older than alpha.1. */
  lemma HyphenComesBeforeDot(core: seq<string>, word: string, a: string, b: string)
    requires IsIdentifier(word) && IsIdentifier(word + "-" + a)
    ensures Before(Version(core, word + "-" + a), Version(core, word + "." + b))
    ensures HasLowerPrecedence(word + "." + b, word + "-" + a) && !HasLowerPrecedence(word + "-" + a, word + "." + b)
  {
    var x, y := word + "-" + a, word + "." + b;
    HyphenBelowDot(word, a, b);
    assert '.' !in word && '.' !in x;
    SameCoreBefore(core, x, y);
    SplitAfter(word, b, '.');
    SplitAfter(x, "", '.');
    assert x[|word|] == '-';
    PrefixComesFirst(word, x);
    hide Before, Less, IsDigits, IsIdentifier, Split, Decimal.Value;
    assert Split(y, '.')[0] == word && Split(x, '.')[0] == x;
  }
}
