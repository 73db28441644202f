/** Version comparison for the upgrade check (internal/commands/upgrade.go). */
module Versions {
  import opened Options
  import opened Ordering
  import opened Text
  import Decimal

  // ---- Library calls --------------------------------------------------------

  const MAX_INT64: int := 0x7FFF_FFFF_FFFF_FFFF

  predicate IsDigits(s: string) { s != "" && forall c :: c in s ==> IsDigit(c) }

  /** `strconv.Atoi`: an optional sign, decimal digits, 64 bits. */
  function Atoi(s: string): Option<int> {
    var signed := s != "" && (s[0] == '-' || s[0] == '+');
    var digits := if signed then s[1..] else s;
    if !IsDigits(digits) then None
    else
      var v := if signed && s[0] == '-' then -Decimal.Value(digits) else Decimal.Value(digits);
      if -MAX_INT64 - 1 <= v <= MAX_INT64 then Some(v) else None
  }

  /** `strings.SplitN(s, "-", 2)`: what precedes the first dash, and what follows it. */
  function SplitDash(s: string): (string, Option<string>) {
    if s == "" then ("", None)
    else if s[0] == '-' then ("", Some(s[1..]))
    else
      var (core, pre) := SplitDash(s[1..]);
      ([s[0]] + core, pre)
  }

  /** Unicode white space, as `strings.TrimSpace` sees it. */
  predicate IsSpace(c: char) {
    || '\U{0009}' <= c <= '\U{000D}' || '\U{2000}' <= c <= '\U{200A}'
    || c in "\U{0020}\U{0085}\U{00A0}\U{1680}\U{2028}\U{2029}\U{202F}\U{205F}\U{3000}"
  }

  function TrimLeft(s: string): string {
    if s != "" && IsSpace(s[0]) then TrimLeft(s[1..]) else s
  }

  function TrimRight(s: string): string {
    if s != "" && IsSpace(s[|s| - 1]) then TrimRight(s[..|s| - 1]) else s
  }

  function TrimPrefix(s: string, p: string): string { if p <= s then s[|p|..] else s }

  /** `normalizeVersion`. */
  function Normalize(v: string): string {
    TrimPrefix(TrimPrefix(TrimRight(TrimLeft(v)), "cli-"), "v")
  }

  // ---- Comparing cores ------------------------------------------------------

  /** A missing or empty component counts as zero. */
  function Component(parts: seq<string>, i: nat): string {
    if i < |parts| && parts[i] != "" then parts[i] else "0"
  }

  function CompareInts(x: int, y: int): int { if x < y then -1 else if x > y then 1 else 0 }

  function CompareStrings(x: string, y: string): int { if x == y then 0 else if Less(x, y) then -1 else 1 }

  function CompareComponents(x: string, y: string): int {
    if Atoi(x).Some? && Atoi(y).Some? then CompareInts(Atoi(x).value, Atoi(y).value) else CompareStrings(x, y)
  }

  function Longer(a: seq<string>, b: seq<string>): nat { if |a| < |b| then |b| else |a| }

  /** The first position that decides. */
  function CompareFrom(a: seq<string>, b: seq<string>, i: nat): int
    decreases Longer(a, b) - i
  {
    if i >= Longer(a, b) then 0
    else
      var c := CompareComponents(Component(a, i), Component(b, i));
      if c != 0 then c else CompareFrom(a, b, i + 1)
  }

  /** `compareNumeric`. */
  method CompareNumeric(a: string, b: string) returns (r: int)
    ensures r == CompareFrom(Split(a, '.'), Split(b, '.'), 0)
  {
    hide Atoi, Split, Leq;
    var ap := Split(a, '.');
    var bp := Split(b, '.');
    var i := 0;
    while i < |ap| || i < |bp|
      invariant i <= Longer(ap, bp)
      invariant CompareFrom(ap, bp, i) == CompareFrom(ap, bp, 0)
      decreases Longer(ap, bp) - i
    {
      var ai, bi := "0", "0";
      if i < |ap| && ap[i] != "" {
        ai := ap[i];
      }
      if i < |bp| && bp[i] != "" {
        bi := bp[i];
      }
      var an, bn := Atoi(ai), Atoi(bi);
      if an.None? || bn.None? {
        if ai == bi {
          i := i + 1;
          continue;
        }
        if Less(ai, bi) {
          return -1;
        }
        return 1;
      }
      if an.value != bn.value {
        if an.value < bn.value {
          return -1;
        }
        return 1;
      }
      i := i + 1;
    }
    r := 0;
  }

  datatype Version = Version(core: seq<string>, pre: string)

  function Parse(v: string): Version {
    var (core, pre) := SplitDash(Normalize(v));
    Version(Split(core, '.'), if pre.Some? then pre.value else "")
  }

  /** Among equal cores the empty pre-release is the newest. */
  predicate PreBefore(x: string, y: string) {
    if x == "" then false else if y == "" then true else Less(x, y)
  }

  predicate Before(x: Version, y: Version) {
    var c := CompareFrom(x.core, y.core, 0);
    if c != 0 then c < 0 else PreBefore(x.pre, y.pre)
  }

  /** `isOutdated`. */
  method IsOutdated(current: string, latest: string) returns (r: bool)
    ensures r <==> current == "" || current == "dev" || Before(Parse(current), Parse(latest))
  {
    hide CompareFrom, SplitDash, Split, TrimLeft, TrimRight;
    if current == "" || current == "dev" {
      return true;
    }
    var cur := Normalize(current);
    var lat := Normalize(latest);
    if cur == lat {
      CompareIsAntisymmetric(Parse(current).core, Parse(latest).core, 0);
      LeqIsTotal(Parse(current).pre, Parse(current).pre);
      return false;
    }
    var (curCore, curRest) := SplitDash(cur);
    var (latCore, latRest) := SplitDash(lat);
    var cmp := CompareNumeric(curCore, latCore);
    if cmp != 0 {
      return cmp < 0;
    }
    var curPre := if curRest.Some? then curRest.value else "";
    var latPre := if latRest.Some? then latRest.value else "";
    if curPre == "" && latPre != "" {
      return false;
    }
    if curPre != "" && latPre == "" {
      return true;
    }
    r := Less(curPre, latPre);
  }

  // ---- Antisymmetry on all strings ------------------------------------------

  lemma StringsAntisymmetric(x: string, y: string)
    ensures CompareStrings(y, x) == -CompareStrings(x, y)
  {
    LeqIsTotal(x, y);
  }

  /** Swapping the arguments negates the result, whatever the strings are. */
  lemma {:induction false} CompareIsAntisymmetric(a: seq<string>, b: seq<string>, i: nat)
    ensures CompareFrom(b, a, i) == -CompareFrom(a, b, i)
    ensures -1 <= CompareFrom(a, b, i) <= 1
    decreases Longer(a, b) - i
  {
    if i < Longer(a, b) {
      StringsAntisymmetric(Component(a, i), Component(b, i));
      CompareIsAntisymmetric(a, b, i + 1);
      hide Atoi, CompareStrings;
    }
  }

  // ---- Order on cores -------------------------------------------------------

  predicate Numeric(s: string) { Atoi(s).Some? }

  /** `w` is no number, and stands in the text order strictly between two numbers that are
      not in that order as numbers. */
  predicate Misfit(v: string, w: string, u: string) {
    && Numeric(v) && Numeric(u) && !Numeric(w)
    && Less(v, w) && Less(w, u) && Atoi(u).value <= Atoi(v).value
  }

  predicate NoMisfit(x: string, y: string, z: string) {
    && !Misfit(x, y, z) && !Misfit(x, z, y) && !Misfit(y, x, z)
    && !Misfit(y, z, x) && !Misfit(z, x, y) && !Misfit(z, y, x)
  }

  /** Going up from x to y and from y to z is going up from x to z, strictly if a step is. */
  predicate Consistent(x: string, y: string, z: string) {
    CompareComponents(x, y) <= 0 && CompareComponents(y, z) <= 0 ==>
      && CompareComponents(x, z) <= 0
      && (CompareComponents(x, z) == 0 <==> CompareComponents(x, y) == 0 && CompareComponents(y, z) == 0)
  }

  /** The text order of three strings, as one fact. */
  lemma TextOrder(x: string, y: string, z: string)
    ensures Less(x, y) || Less(y, x) || x == y
    ensures !(Less(x, y) && Less(y, x)) && !Less(x, x)
    ensures Less(x, y) && Less(y, z) ==> Less(x, z)
  {
    LeqIsTotal(x, y);
    LeqIsTotal(y, z);
    LeqIsTotal(x, z);
    if Less(x, y) && Less(y, z) {
      LeqIsTransitive(x, y, z);
    }
  }

  lemma AllTextOrders(x: string, y: string, z: string)
    ensures forall a, b, c :: a in {x, y, z} && b in {x, y, z} && c in {x, y, z} ==>
              && (Less(a, b) || Less(b, a) || a == b) && !(Less(a, b) && Less(b, a)) && !Less(a, a)
              && (Less(a, b) && Less(b, c) ==> Less(a, c))
  {
    hide Less;
    forall a, b, c | a in {x, y, z} && b in {x, y, z} && c in {x, y, z}
      ensures && (Less(a, b) || Less(b, a) || a == b) && !(Less(a, b) && Less(b, a)) && !Less(a, a)
              && (Less(a, b) && Less(b, c) ==> Less(a, c))
    {
      TextOrder(a, b, c);
    }
  }

  /** Three components are compared consistently, in every order, exactly when none of them
      is a misfit between the other two. */
  lemma ConsistentIffNoMisfit(x: string, y: string, z: string)
    ensures NoMisfit(x, y, z) <==>
              && Consistent(x, y, z) && Consistent(x, z, y) && Consistent(y, x, z)
              && Consistent(y, z, x) && Consistent(z, x, y) && Consistent(z, y, x)
  {
    AllTextOrders(x, y, z);
    hide Less, Atoi;
  }

  /** Position by position, no component is a misfit between those of the other two cores. */
  ghost predicate Comparable(a: seq<string>, b: seq<string>, c: seq<string>) {
    forall i: nat :: NoMisfit(Component(a, i), Component(b, i), Component(c, i))
  }

  /** That is so whenever all components are numbers, or none of a position is. */
  lemma SameKindsAreComparable(a: seq<string>, b: seq<string>, c: seq<string>)
    requires forall i: nat :: Numeric(Component(a, i)) == Numeric(Component(b, i)) == Numeric(Component(c, i))
    ensures Comparable(a, b, c)
  {
    hide Numeric, Component, Less;
  }

  lemma ZeroIsZero()
    ensures Numeric("0") && CompareComponents("0", "0") == 0
  {
    assert "0"[..0] == "";
    assert Decimal.Value("0") == 0;
  }

  /** Past the end of both cores nothing decides. */
  lemma {:induction false} CompareBeyond(a: seq<string>, b: seq<string>, i: nat)
    ensures CompareFrom(a, b, i) ==
              var c := CompareComponents(Component(a, i), Component(b, i));
              if c != 0 then c else CompareFrom(a, b, i + 1)
  {
    ZeroIsZero();
    hide Atoi;
  }

  /** The comparison of comparable cores is transitive, and strict as soon as one of the two
      steps is. */
  lemma {:induction false} CompareIsTransitive(a: seq<string>, b: seq<string>, c: seq<string>, i: nat)
    requires Comparable(a, b, c)
    requires CompareFrom(a, b, i) <= 0 && CompareFrom(b, c, i) <= 0
    ensures CompareFrom(a, c, i) <= 0
    ensures CompareFrom(a, c, i) == 0 <==> CompareFrom(a, b, i) == 0 && CompareFrom(b, c, i) == 0
    decreases |a| + |b| + |c| - i
  {
    hide CompareFrom, CompareComponents;
    if i >= |a| + |b| + |c| {
      CompareEnds(a, b, i);
      CompareEnds(b, c, i);
      CompareEnds(a, c, i);
    } else {
      CompareBeyond(a, b, i);
      CompareBeyond(b, c, i);
      CompareBeyond(a, c, i);
      var x, y, z := Component(a, i), Component(b, i), Component(c, i);
      assert NoMisfit(x, y, z);
      hide NoMisfit, Component, Comparable;
      ConsistentIffNoMisfit(x, y, z);
      if CompareComponents(x, y) == 0 && CompareComponents(y, z) == 0 {
        CompareIsTransitive(a, b, c, i + 1);
      }
    }
  }

  lemma CompareEnds(a: seq<string>, b: seq<string>, i: nat)
    requires i >= Longer(a, b)
    ensures CompareFrom(a, b, i) == 0
  {
  }

  function NumberAt(core: seq<string>, i: nat): int {
    var x := Atoi(Component(core, i));
    if x.Some? then x.value else 0
  }

  ghost predicate AllNumeric(core: seq<string>) { forall i: nat :: Numeric(Component(core, i)) }

  /** On numeric cores the comparison is that of the number sequences, continued with zeros:
      it is zero exactly for versions that agree up to zero padding and spelling. */
  lemma {:induction false} EqualUpToPadding(a: seq<string>, b: seq<string>, i: nat)
    requires AllNumeric(a) && AllNumeric(b)
    ensures CompareFrom(a, b, i) == 0 <==> forall j: nat :: j >= i ==> NumberAt(a, j) == NumberAt(b, j)
    decreases |a| + |b| - i
  {
    hide CompareFrom, Atoi;
    assert Numeric(Component(a, i)) && Numeric(Component(b, i));
    if i >= |a| + |b| {
      CompareEnds(a, b, i);
    } else {
      CompareBeyond(a, b, i);
      EqualUpToPadding(a, b, i + 1);
      assert (forall j: nat :: j >= i ==> NumberAt(a, j) == NumberAt(b, j)) <==>
             NumberAt(a, i) == NumberAt(b, i) && forall j: nat :: j >= i + 1 ==> NumberAt(a, j) == NumberAt(b, j);
    }
  }

  // ---- Order on versions ----------------------------------------------------

  lemma PreIsStrictOrder(x: string, y: string, z: string)
    ensures !PreBefore(x, x) && !(PreBefore(x, y) && PreBefore(y, x))
    ensures PreBefore(x, y) && PreBefore(y, z) ==> PreBefore(x, z)
    ensures !PreBefore(x, y) && !PreBefore(y, x) ==> x == y
  {
    LeqIsTotal(x, y);
    LeqIsTotal(y, z);
    LeqIsTotal(x, z);
    if Leq(x, y) && Leq(y, z) {
      LeqIsTransitive(x, y, z);
    }
    hide Leq;
  }

  /** "Older than" is irreflexive and asymmetric on all versions. */
  lemma BeforeIsAsymmetric(x: Version, y: Version)
    ensures !Before(x, x) && !(Before(x, y) && Before(y, x))
  {
    CompareIsAntisymmetric(x.core, y.core, 0);
    CompareIsAntisymmetric(x.core, x.core, 0);
    PreIsStrictOrder(x.pre, y.pre, y.pre);
    hide CompareFrom, PreBefore;
  }

  /** It is a strict weak order on versions with comparable cores, all-numeric ones among them:
      transitive, with a transitive tie. */
  lemma BeforeIsStrictWeakOrder(x: Version, y: Version, z: Version)
    requires Comparable(x.core, y.core, z.core)
    ensures Before(x, y) && Before(y, z) ==> Before(x, z)
    ensures !Before(x, y) && !Before(y, z) ==> !Before(x, z)
  {
    CompareIsAntisymmetric(x.core, y.core, 0);
    CompareIsAntisymmetric(y.core, z.core, 0);
    CompareIsAntisymmetric(x.core, z.core, 0);
    var xy, yz := CompareFrom(x.core, y.core, 0), CompareFrom(y.core, z.core, 0);
    if xy <= 0 && yz <= 0 {
      CompareIsTransitive(x.core, y.core, z.core, 0);
    }
    if xy >= 0 && yz >= 0 {
      forall i: nat ensures NoMisfit(Component(z.core, i), Component(y.core, i), Component(x.core, i)) {
        assert NoMisfit(Component(x.core, i), Component(y.core, i), Component(z.core, i));
      }
      CompareIsTransitive(z.core, y.core, x.core, 0);
    }
    PreIsStrictOrder(x.pre, y.pre, z.pre);
    PreIsStrictOrder(y.pre, z.pre, x.pre);
    PreIsStrictOrder(z.pre, y.pre, x.pre);
    PreIsStrictOrder(x.pre, z.pre, y.pre);
    hide CompareFrom, PreBefore, Comparable;
  }

  /** A pre-release comes right before its release: against other cores the two compare alike.
      This is section 11 of Semantic Versioning 2.0.0. */
  lemma PreReleaseComesFirst(core: seq<string>, pre: string, other: Version)
    requires pre != ""
    ensures Before(Version(core, pre), Version(core, "")) && !Before(Version(core, ""), Version(core, pre))
    ensures CompareFrom(core, other.core, 0) != 0 ==>
              (Before(Version(core, pre), other) <==> Before(Version(core, ""), other))
  {
    CompareIsAntisymmetric(core, core, 0);
    hide CompareFrom;
  }

  // ---- What the strings stand for --------------------------------------------

  predicate AllSpace(s: string) { forall c :: c in s ==> IsSpace(c) }

  /** Not empty, and no white space at either end. */
  predicate Trimmed(s: string) { s != "" && !IsSpace(s[0]) && !IsSpace(s[|s| - 1]) }

  lemma {:induction false} TrimsLeft(front: string, t: string)
    requires AllSpace(front) && (t == "" || !IsSpace(t[0]))
    ensures TrimLeft(front + t) == t
  {
    if front == "" {
      assert front + t == t;
    } else {
      assert (front + t)[1..] == front[1..] + t;
      TrimsLeft(front[1..], t);
    }
  }

  lemma {:induction false} TrimsRight(t: string, back: string)
    requires AllSpace(back) && (t == "" || !IsSpace(t[|t| - 1]))
    ensures TrimRight(t + back) == t
  {
    if back == "" {
      assert t + back == t;
    } else {
      var n := |back| - 1;
      assert (t + back)[..|t| + n] == t + back[..n];
      TrimsRight(t, back[..n]);
    }
  }

  /** White space around a tag, one "cli-" in front of it and one "v" after that make no
      difference; nothing else is taken off. */
  lemma NormalizeStrips(front: string, s: string, back: string)
    requires AllSpace(front) && AllSpace(back) && Trimmed(s)
    ensures Normalize(front + s + back) == Normalize(s)
    ensures !("cli-" <= s) && s[0] != 'v' ==> Normalize(s) == s
    ensures !("cli-" <= s) && s[0] == 'v' ==> Normalize(s) == s[1..]
    ensures "cli-" <= s && !("v" <= s[4..]) ==> Normalize(s) == s[4..]
    ensures "cli-" <= s && "v" <= s[4..] ==> Normalize(s) == s[5..]
  {
    hide TrimLeft, TrimRight, IsSpace;
    assert front + s + back == front + (s + back);
    TrimsLeft(front, s + back);
    TrimsRight(s, back);
    TrimsLeft("", s);
    TrimsRight(s, "");
    assert "" + s == s && s + "" == s;
  }

  lemma {:induction false} SplitsAtDash(core: string, pre: string)
    requires '-' !in core
    ensures SplitDash(core) == (core, None)
    ensures SplitDash(core + ("-" + pre)) == (core, Some(pre))
  {
    var t := core + ("-" + pre);
    if core == "" {
      assert t[1..] == pre;
    } else {
      assert t[1..] == core[1..] + ("-" + pre) && core == [core[0]] + core[1..];
      SplitsAtDash(core[1..], pre);
    }
  }

  /** What stands before the first dash is the core, and what follows it the pre-release. */
  lemma ParseIs(s: string, pre: string)
    requires Trimmed(s) && !("cli-" <= s) && s[0] != 'v' && '-' !in s && s != "cli"
    requires pre == "" || !IsSpace(pre[|pre| - 1])
    ensures Parse(s) == Version(Split(s, '.'), "")
    ensures Parse(s + ("-" + pre)) == Version(Split(s, '.'), pre)
  {
    hide SplitDash, IsSpace, Split, Normalize;
    var t := s + ("-" + pre);
    SplitsAtDash(s, pre);
    NormalizeStrips("", s, "");
    assert t[0] == s[0] && t[|t| - 1] == if pre == "" then '-' else pre[|pre| - 1];
    assert !IsSpace('-') by { DashIsNoSpace(); }
    if "cli-" <= t {
      CliBeforeDash(s, pre);
    }
    NormalizeStrips("", t, "");
  }

  lemma CliBeforeDash(s: string, pre: string)
    requires '-' !in s && "cli-" <= s + ("-" + pre)
    ensures s == "cli"
  {
    var t := s + ("-" + pre);
    assert t[0] == 'c' && t[1] == 'l' && t[2] == 'i' && t[3] == '-' && t[|s|] == '-';
    assert forall i :: 0 <= i < |s| ==> t[i] == s[i] && s[i] in s;
    assert |s| == 3 && s == t[..3];
  }

  lemma DashIsNoSpace()
    ensures !IsSpace('-')
  {
  }

  // ---- Which components decide ----------------------------------------------

  /** Decimal numbers within 64 bits are read as such, with or without a sign; others are text. */
  lemma AtoiReads(n: int)
    requires n >= 0
    ensures Atoi(Decimal.Render(n)) == Atoi("+" + Decimal.Render(n)) == if n <= MAX_INT64 then Some(n) else None
    ensures Atoi("-" + Decimal.Render(n)) == if n <= MAX_INT64 + 1 then Some(-n) else None
  {
    hide Decimal.Render, Decimal.Value;
    var s := Decimal.Render(n);
    Decimal.ValueOfRender(n);
    assert s[0] in s && ("+" + s)[1..] == s && ("-" + s)[1..] == s;
  }

  /** A component with any other character than a sign in front and digits is text. */
  lemma AtoiRefuses(s: string, i: nat)
    requires i < |s| && !IsDigit(s[i]) && (i > 0 || s[0] !in "+-" || s == "+" || s == "-")
    ensures Atoi(s) == None
  {
    if s != "" && s[0] in "+-" && i > 0 {
      assert s[1..][i - 1] == s[i];
    }
  }

  /** An empty component between two dots compares as one that is missing at the end: as zero. */
  lemma EmptyIsZero(before: seq<string>, after: seq<string>, i: nat)
    ensures Component(before + [""] + after, |before|) == "0"
    ensures i >= |before| ==> Component(before, i) == "0"
    ensures i < |before| && before[i] != "" ==> Component(before, i) == before[i] == Component(before + after, i)
  {
  }

  /** Components before position `k` tie: equal as numbers or as text. */
  predicate TieBefore(a: seq<string>, b: seq<string>, k: nat) {
    forall j :: 0 <= j < k ==>
      var x, y := Component(a, j), Component(b, j);
      x == y || (Atoi(x).Some? && Atoi(x) == Atoi(y))
  }

  /** The first position without a tie decides: by value if both components are numbers, and
      in text order otherwise. */
  lemma {:induction false} FirstDifferenceDecides(a: seq<string>, b: seq<string>, i: nat, k: nat)
    requires i <= k && TieBefore(a, b, k)
    ensures var x, y := Component(a, k), Component(b, k);
            && (Atoi(x).Some? && Atoi(y).Some? && Atoi(x).value < Atoi(y).value ==> CompareFrom(a, b, i) == -1)
            && (!(Atoi(x).Some? && Atoi(y).Some?) && Less(x, y) ==> CompareFrom(a, b, i) == -1)
    decreases k - i
  {
    hide CompareFrom, Component, Atoi;
    CompareBeyond(a, b, i);
    if i < k {
      assert CompareComponents(Component(a, i), Component(b, i)) == 0;
      FirstDifferenceDecides(a, b, i + 1, k);
    } else {
      LessIsStrict(Component(a, k), Component(b, k));
    }
  }

  lemma LessIsStrict(x: string, y: string)
    ensures Less(x, y) ==> x != y && !Less(y, x)
  {
    LeqIsTotal(x, y);
  }

  // ---- When three versions are in order -------------------------------------

  function ComparePre(x: string, y: string): int {
    if PreBefore(x, y) then -1 else if PreBefore(y, x) then 1 else 0
  }

  /** What decides between two versions from component `i` on. */
  function RestFrom(x: Version, y: Version, i: nat): int {
    var c := CompareFrom(x.core, y.core, i);
    if c != 0 then c else ComparePre(x.pre, y.pre)
  }

  /** "Older than" is transitive on these three versions, and so is its negation. */
  predicate InOrder(x: Version, y: Version, z: Version) {
    && (Before(x, y) && Before(y, z) ==> Before(x, z))
    && (!Before(x, y) && !Before(y, z) ==> !Before(x, z))
  }

  predicate WeaklyOrdered(x: Version, y: Version, z: Version) {
    && InOrder(x, y, z) && InOrder(x, z, y) && InOrder(y, x, z)
    && InOrder(y, z, x) && InOrder(z, x, y) && InOrder(z, y, x)
  }

  predicate Tie(x: string, y: string) { CompareComponents(x, y) == 0 }

  /** All three components of position `i` tie. */
  predicate AllTie(a: seq<string>, b: seq<string>, c: seq<string>, i: nat) {
    && Tie(Component(a, i), Component(b, i)) && Tie(Component(b, i), Component(c, i))
    && Tie(Component(a, i), Component(c, i))
  }

  /** The first position from `i` on where not all components tie. */
  function FirstSplit(a: seq<string>, b: seq<string>, c: seq<string>, i: nat): Option<nat>
    decreases |a| + |b| + |c| - i
  {
    if i >= |a| + |b| + |c| then None
    else if AllTie(a, b, c, i) then FirstSplit(a, b, c, i + 1)
    else Some(i)
  }

  /** `u` and `v` tie, so `rest` decides between their versions; a `w` strictly between them
      needs it to decide the same way. */
  predicate Settled(u: string, v: string, w: string, rest: int) {
    && (CompareComponents(u, w) < 0 && CompareComponents(w, v) < 0 ==> rest < 0)
    && (CompareComponents(v, w) < 0 && CompareComponents(w, u) < 0 ==> rest > 0)
  }

  predicate SplitInOrder(x: Version, y: Version, z: Version, p: nat) {
    var u, v, w := Component(x.core, p), Component(y.core, p), Component(z.core, p);
    if Tie(u, v) then Settled(u, v, w, RestFrom(x, y, p + 1))
    else if Tie(v, w) then Settled(v, w, u, RestFrom(y, z, p + 1))
    else if Tie(u, w) then Settled(u, w, v, RestFrom(x, z, p + 1))
    else NoMisfit(u, v, w)
  }

  /** A tie is an equivalence: two components tie that tie with a third one. */
  lemma TieTransits(x: string, y: string, z: string)
    ensures Tie(x, y) ==> Tie(y, x)
    ensures Tie(x, y) && Tie(y, z) ==> Tie(x, z)
  {
    hide Atoi, Less;
  }

  lemma ComponentsAntisymmetric(x: string, y: string)
    ensures CompareComponents(y, x) == -CompareComponents(x, y)
  {
    StringsAntisymmetric(x, y);
    hide Atoi, CompareStrings;
  }

  /** The sign of a comparison of versions, with all its laws for two. */
  lemma RestIsAntisymmetric(x: Version, y: Version, i: nat)
    ensures RestFrom(y, x, i) == -RestFrom(x, y, i)
    ensures Before(x, y) <==> RestFrom(x, y, 0) < 0
    ensures Before(y, x) <==> RestFrom(x, y, 0) > 0
  {
    CompareIsAntisymmetric(x.core, y.core, i);
    CompareIsAntisymmetric(x.core, y.core, 0);
    PreIsStrictOrder(x.pre, y.pre, x.pre);
    hide CompareFrom, PreBefore;
  }

  lemma RestStep(x: Version, y: Version, i: nat)
    ensures RestFrom(x, y, i) ==
              var c := CompareComponents(Component(x.core, i), Component(y.core, i));
              if c != 0 then c else RestFrom(x, y, i + 1)
  {
    CompareBeyond(x.core, y.core, i);
    hide CompareFrom, CompareComponents, ComparePre;
  }

  /** Ties are passed over: only the position of the first split, or the pre-releases, decide. */
  lemma {:induction false} UpToSplit(x: Version, y: Version, z: Version, i: nat)
    ensures var p := FirstSplit(x.core, y.core, z.core, i);
            match p
            case Some(p) =>
              && !AllTie(x.core, y.core, z.core, p)
              && RestFrom(x, y, i) == RestFrom(x, y, p) && RestFrom(y, z, i) == RestFrom(y, z, p)
              && RestFrom(x, z, i) == RestFrom(x, z, p)
            case None =>
              && RestFrom(x, y, i) == ComparePre(x.pre, y.pre) && RestFrom(y, z, i) == ComparePre(y.pre, z.pre)
              && RestFrom(x, z, i) == ComparePre(x.pre, z.pre)
    decreases |x.core| + |y.core| + |z.core| - i
  {
    hide CompareFrom, ComparePre, CompareComponents, Component;
    if i >= |x.core| + |y.core| + |z.core| {
      CompareEnds(x.core, y.core, i);
      CompareEnds(y.core, z.core, i);
      CompareEnds(x.core, z.core, i);
    } else if AllTie(x.core, y.core, z.core, i) {
      RestStep(x, y, i);
      RestStep(y, z, i);
      RestStep(x, z, i);
      hide RestFrom;
      UpToSplit(x, y, z, i + 1);
    }
  }

  /** The signs of the three comparisons are those of three numbers. */
  predicate Orderly(xy: int, yz: int, xz: int) {
    && (xy <= 0 && yz <= 0 ==> xz <= 0 && (xz == 0 <==> xy == 0 && yz == 0))
    && (xy >= 0 && yz >= 0 ==> xz >= 0 && (xz == 0 <==> xy == 0 && yz == 0))
    && (xy == 0 ==> (yz < 0 <==> xz < 0) && (yz > 0 <==> xz > 0))
    && (yz == 0 ==> (xy < 0 <==> xz < 0) && (xy > 0 <==> xz > 0))
    && (xz == 0 ==> (xy < 0 <==> yz > 0) && (xy > 0 <==> yz < 0))
  }

  lemma OrderedIffOrderly(x: Version, y: Version, z: Version)
    ensures WeaklyOrdered(x, y, z) <==> Orderly(RestFrom(x, y, 0), RestFrom(y, z, 0), RestFrom(x, z, 0))
  {
    RestIsAntisymmetric(x, y, 0);
    RestIsAntisymmetric(y, z, 0);
    RestIsAntisymmetric(x, z, 0);
    hide Before, RestFrom;
  }

  lemma ConsistentIffOrderly(x: string, y: string, z: string)
    ensures NoMisfit(x, y, z) <==> Orderly(CompareComponents(x, y), CompareComponents(y, z), CompareComponents(x, z))
  {
    ConsistentIffNoMisfit(x, y, z);
    ComponentsAntisymmetric(x, y);
    ComponentsAntisymmetric(y, z);
    ComponentsAntisymmetric(x, z);
    hide NoMisfit, CompareComponents;
  }

  lemma PresAreOrderly(x: string, y: string, z: string)
    ensures Orderly(ComparePre(x, y), ComparePre(y, z), ComparePre(x, z))
  {
    PreIsStrictOrder(x, y, z);
    PreIsStrictOrder(y, z, x);
    PreIsStrictOrder(z, x, y);
    PreIsStrictOrder(x, z, y);
    PreIsStrictOrder(y, x, z);
    PreIsStrictOrder(z, y, x);
    hide PreBefore;
  }

  lemma SplitIsOrderlyIff(x: Version, y: Version, z: Version, p: nat)
    requires !AllTie(x.core, y.core, z.core, p)
    ensures SplitInOrder(x, y, z, p) <==> Orderly(RestFrom(x, y, p), RestFrom(y, z, p), RestFrom(x, z, p))
  {
    var u, v, w := Component(x.core, p), Component(y.core, p), Component(z.core, p);
    RestStep(x, y, p);
    RestStep(y, z, p);
    RestStep(x, z, p);
    ConsistentIffOrderly(u, v, w);
    TieTransits(u, v, w);
    TieTransits(v, u, w);
    TieTransits(u, w, v);
    TieTransits(w, u, v);
    TieTransits(v, w, u);
    TieTransits(w, v, u);
    ComponentsAntisymmetric(u, v);
    ComponentsAntisymmetric(v, w);
    ComponentsAntisymmetric(u, w);
    hide NoMisfit, CompareComponents, RestFrom, Component;
  }

  /** For any three versions: "older than" orders them, with a transitive tie, exactly when
      their cores tie throughout or are in order where they first split, that is: three
      components of different value hold no misfit, and a component strictly between two that
      tie finds their versions decided the same way by what follows. */
  lemma OrderedIff(x: Version, y: Version, z: Version)
    ensures WeaklyOrdered(x, y, z) <==>
              var p := FirstSplit(x.core, y.core, z.core, 0);
              p.None? || SplitInOrder(x, y, z, p.value)
  {
    hide *;
    OrderedIffOrderly(x, y, z);
    UpToSplit(x, y, z, 0);
    PresAreOrderly(x.pre, y.pre, z.pre);
    var p := FirstSplit(x.core, y.core, z.core, 0);
    if p.Some? {
      SplitIsOrderlyIff(x, y, z, p.value);
    }
  }

  // ---- Where the order breaks -----------------------------------------------

  /** Mixing numbers and other components makes a cycle: 2 is older than 10, 10 than 1a, 1a than 2. */
  lemma MixedComponentsCycle()
    ensures Before(Version(["2"], ""), Version(["10"], ""))
    ensures Before(Version(["10"], ""), Version(["1a"], ""))
    ensures Before(Version(["1a"], ""), Version(["2"], ""))
  {
    assert "2"[..0] == "" && "10"[..1] == "1" && "1"[..0] == "";
    assert Decimal.Value("2") == 2;
    assert Decimal.Value("1") == 1;
    assert Decimal.Value("10") == 10;
    assert Atoi("2") == Some(2) && Atoi("10") == Some(10);
    assert 'a' in "1a" && !IsDigits("1a");
    assert Atoi("1a") == None;
    assert "10"[1..] == "0" && "1a"[1..] == "a";
    hide Atoi, Decimal.Value;
    assert Less("10", "1a") && Less("1a", "2");
    assert CompareFrom(["2"], ["10"], 0) == -1;
    assert CompareFrom(["10"], ["1a"], 0) == -1;
    assert CompareFrom(["1a"], ["2"], 0) == -1;
  }
}
