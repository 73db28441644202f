/** The two-row Levenshtein loop and the suggestion ranking of
    internal/diagnostic/didyoumean.go.  A word is the sequence of its runes. */
module EditDistance {
  import opened Ordering

  // ---- Reference: chains of single-character edits --------------------------

  datatype Edit = Ins(at: nat, c: char) | Del(at: nat) | Rep(at: nat, c: char)

  predicate Applicable(w: string, e: Edit) {
    if e.Ins? then e.at <= |w| else e.at < |w|
  }

  function Apply(w: string, e: Edit): string
    requires Applicable(w, e)
  {
    match e
    case Ins(i, c) => w[..i] + [c] + w[i..]
    case Del(i) => w[..i] + w[i + 1..]
    case Rep(i, c) => w[i := c]
  }

  /** Performing the edits of `script` one after the other turns `w` into `target`. */
  predicate Turns(w: string, script: seq<Edit>, target: string)
    decreases |script|
  {
    if script == [] then w == target
    else Applicable(w, script[0]) && Turns(Apply(w, script[0]), script[1..], target)
  }

  /** `d` is the least number of single-character edits that turn `a` into `b`. */
  ghost predicate IsEditDistance(a: string, b: string, d: nat) {
    && (exists script :: Turns(a, script, b) && |script| == d)
    && (forall script :: Turns(a, script, b) ==> d <= |script|)
  }

  // ---- The recurrence the table is filled by --------------------------------

  function Min3(x: nat, y: nat, z: nat): nat {
    if x <= y && x <= z then x else if y <= z then y else z
  }

  function Cost(x: char, y: char): nat { if x == y then 0 else 1 }

  function Lev(a: string, b: string): nat
    decreases |a| + |b|
  {
    if a == "" then |b|
    else if b == "" then |a|
    else
      var a', b' := a[..|a| - 1], b[..|b| - 1];
      Min3(Lev(a, b') + 1, Lev(a', b) + 1, Lev(a', b') + Cost(a[|a| - 1], b[|b| - 1]))
  }

  // ---- Metric laws ----------------------------------------------------------

  lemma {:induction false} LevZeroIffEqual(a: string, b: string)
    ensures Lev(a, b) == 0 <==> a == b
    decreases |a| + |b|
  {
    if a != "" && b != "" {
      var a', b' := a[..|a| - 1], b[..|b| - 1];
      LevZeroIffEqual(a', b');
      assert a == a' + [a[|a| - 1]] && b == b' + [b[|b| - 1]];
    }
  }

  lemma {:induction false} LevSymmetric(a: string, b: string)
    ensures Lev(a, b) == Lev(b, a)
    decreases |a| + |b|
  {
    if a != "" && b != "" {
      var a', b' := a[..|a| - 1], b[..|b| - 1];
      LevSymmetric(a, b');
      LevSymmetric(a', b);
      LevSymmetric(a', b');
    }
  }

  /** Dropping the last character moves a word by at most one edit. */
  lemma {:induction false} LevDropLast(a: string, b: string)
    requires a != ""
    ensures Lev(a[..|a| - 1], b) <= Lev(a, b) + 1
    ensures Lev(a, b) <= Lev(a[..|a| - 1], b) + 1
    decreases |a| + |b|
  {
    var a' := a[..|a| - 1];
    if b != "" {
      var b' := b[..|b| - 1];
      LevDropLast(a, b');
      if a' != "" {
        LevDropLast(a', b);
        LevSymmetric(a', b);
        LevSymmetric(a', b');
        LevDropLast(b, a');
      }
    }
  }

  lemma {:induction false} LevStep(a: string, b: string)
    ensures Lev(a, b) ==
      if a == "" then |b|
      else if b == "" then |a|
      else Min3(Lev(a, b[..|b| - 1]) + 1, Lev(a[..|a| - 1], b) + 1,
                Lev(a[..|a| - 1], b[..|b| - 1]) + Cost(a[|a| - 1], b[|b| - 1]))
  {
  }

  lemma {:induction false} LevTriangle(a: string, b: string, c: string)
    ensures Lev(a, c) <= Lev(a, b) + Lev(b, c)
    decreases |a| + |b| + |c|
  {
    hide Lev;
    LevStep(a, b);
    LevStep(b, c);
    LevStep(a, c);
    if a == "" {
      LevAtLeastLengthGap(b, c);
    } else if c == "" {
      LevAtLeastLengthGap(b, a);
      LevSymmetric(a, b);
    } else if b == "" {
      LevAtMostLengths(a, c);
    } else {
      var a', b', c' := a[..|a| - 1], b[..|b| - 1], c[..|c| - 1];
      LevTriangle(a', b, c);
      LevTriangle(a, b, c');
      LevTriangle(a, b', c);
      LevTriangle(a, b', c');
      LevTriangle(a', b', c);
      LevTriangle(a', b', c');
    }
  }

  lemma {:induction false} LevAtLeastLengthGap(b: string, c: string)
    ensures |c| <= |b| + Lev(b, c)
    decreases |b| + |c|
  {
    if b != "" && c != "" {
      var b', c' := b[..|b| - 1], c[..|c| - 1];
      LevAtLeastLengthGap(b, c');
      LevAtLeastLengthGap(b', c);
      LevAtLeastLengthGap(b', c');
    }
  }

  lemma {:induction false} LevAtMostLengths(a: string, c: string)
    ensures Lev(a, c) <= |a| + |c|
    decreases |a| + |c|
  {
    if a != "" && c != "" {
      LevAtMostLengths(a, c[..|c| - 1]);
    }
  }

  // ---- Lower bound: no script is shorter than Lev ---------------------------

  lemma {:induction false} LevCommonSuffix(u: string, v: string, s: string)
    ensures Lev(u + s, v + s) <= Lev(u, v)
  {
    if s == "" {
      assert u + s == u && v + s == v;
    } else {
      var s' := s[..|s| - 1];
      LevCommonSuffix(u, v, s');
      assert (u + s)[..|u + s| - 1] == u + s' && (v + s)[..|v + s| - 1] == v + s';
    }
  }

  lemma LastCharIsNear(p: string, x: char, y: char)
    ensures Lev(p + [x], p) <= 1 && Lev(p, p + [x]) <= 1 && Lev(p + [x], p + [y]) <= 1
  {
    LevZeroIffEqual(p, p);
    assert (p + [x])[..|p|] == p == (p + [y])[..|p|];
    LevDropLast(p + [x], p);
    LevSymmetric(p, p + [x]);
  }

  /** One edit, wherever it happens in the word, has Levenshtein distance at most one. */
  lemma OneEditIsNear(w: string, e: Edit)
    requires Applicable(w, e)
    ensures Lev(w, Apply(w, e)) <= 1
  {
    hide Lev;
    var p := w[..e.at];
    match e {
      case Ins(i, c) =>
        LastCharIsNear(p, c, c);
        LevCommonSuffix(p, p + [c], w[i..]);
        assert w == p + w[i..];
      case Del(i) =>
        LastCharIsNear(p, w[i], w[i]);
        LevCommonSuffix(p + [w[i]], p, w[i + 1..]);
        assert w == p + [w[i]] + w[i + 1..];
      case Rep(i, c) =>
        LastCharIsNear(p, w[i], c);
        LevCommonSuffix(p + [w[i]], p + [c], w[i + 1..]);
        assert w == p + [w[i]] + w[i + 1..];
        assert Apply(w, e) == p + [c] + w[i + 1..];
    }
  }

  lemma {:induction false} NoScriptIsShorter(a: string, script: seq<Edit>, b: string)
    requires Turns(a, script, b)
    ensures Lev(a, b) <= |script|
    decreases |script|
  {
    if script == [] {
      LevZeroIffEqual(a, b);
    } else {
      var m := Apply(a, script[0]);
      OneEditIsNear(a, script[0]);
      NoScriptIsShorter(m, script[1..], b);
      LevTriangle(a, m, b);
    }
  }

  // ---- Upper bound: a script of length Lev exists ---------------------------

  lemma SlicesUnderSuffix(w: string, s: string, i: nat)
    requires i <= |w|
    ensures (w + s)[..i] == w[..i] && (w + s)[i..] == w[i..] + s
  {
  }

  lemma Regroup(x: string, y: string, z: string)
    ensures x + y + z == x + (y + z)
  {
  }

  lemma ApplyUnderSuffix(w: string, e: Edit, s: string)
    requires Applicable(w, e)
    ensures Applicable(w + s, e) && Apply(w + s, e) == Apply(w, e) + s
  {
    match e {
      case Ins(i, c) =>
        SlicesUnderSuffix(w, s, i);
        Regroup(w[..i] + [c], w[i..], s);
      case Del(i) =>
        SlicesUnderSuffix(w, s, i);
        SlicesUnderSuffix(w, s, i + 1);
        Regroup(w[..i], w[i + 1..], s);
      case Rep(i, c) =>
        assert (w + s)[i := c] == w[i := c] + s;
    }
  }

  lemma {:induction false} TurnsUnderSuffix(a: string, script: seq<Edit>, b: string, s: string)
    requires Turns(a, script, b)
    ensures Turns(a + s, script, b + s)
    decreases |script|
  {
    hide Apply, Applicable;
    if script != [] {
      TurnsUnderSuffix(Apply(a, script[0]), script[1..], b, s);
      ApplyUnderSuffix(a, script[0], s);
    }
  }

  lemma {:induction false} TurnsThenEdit(a: string, script: seq<Edit>, b: string, e: Edit)
    requires Turns(a, script, b) && Applicable(b, e)
    ensures Turns(a, script + [e], Apply(b, e))
    decreases |script|
  {
    if script == [] {
      assert (script + [e])[1..] == [];
    } else {
      TurnsThenEdit(Apply(a, script[0]), script[1..], b, e);
      assert (script + [e])[1..] == script[1..] + [e];
    }
  }

  lemma {:induction false} EditFirst(a: string, e: Edit, script: seq<Edit>, b: string)
    requires Applicable(a, e) && Turns(Apply(a, e), script, b)
    ensures Turns(a, [e] + script, b)
  {
    assert ([e] + script)[1..] == script;
  }

  /** The recurrence, one step unfolded. */
  lemma ReplaceLast(a: string, b: string, script: seq<Edit>) returns (longer: seq<Edit>)
    requires a != "" && b != "" && Turns(a[..|a| - 1], script, b[..|b| - 1])
    ensures Turns(a, longer, b) && |longer| == |script| + Cost(a[|a| - 1], b[|b| - 1])
  {
    hide Turns;
    var a', b', y := a[..|a| - 1], b[..|b| - 1], b[|b| - 1];
    TurnsUnderSuffix(a', script, b', [y]);
    assert b == b' + [y];
    if a[|a| - 1] == y {
      assert a == a' + [y];
      longer := script;
    } else {
      var e := Rep(|a'|, y);
      assert Apply(a, e) == a' + [y];
      EditFirst(a, e, script, b);
      longer := [e] + script;
    }
  }

  lemma {:induction false} AttainingScript(a: string, b: string) returns (script: seq<Edit>)
    ensures Turns(a, script, b) && |script| == Lev(a, b)
    decreases |a| + |b|
  {
    hide Turns, Lev;
    LevStep(a, b);
    if a == "" && b == "" {
      script := [];
      NoEdits(a);
    } else if b != "" && (a == "" || Lev(a, b) == Lev(a, b[..|b| - 1]) + 1) {
      var b' := b[..|b| - 1];
      var e := Ins(|b'|, b[|b| - 1]);
      LevStep(a, b');
      script := AttainingScript(a, b');
      TurnsThenEdit(a, script, b', e);
      assert Apply(b', e) == b;
      script := script + [e];
    } else if b == "" || Lev(a, b) == Lev(a[..|a| - 1], b) + 1 {
      var a' := a[..|a| - 1];
      var e := Del(|a'|);
      LevStep(a', b);
      script := AttainingScript(a', b);
      assert Apply(a, e) == a';
      EditFirst(a, e, script, b);
      script := [e] + script;
    } else {
      script := AttainingScript(a[..|a| - 1], b[..|b| - 1]);
      script := ReplaceLast(a, b, script);
    }
  }

  lemma NoEdits(a: string)
    ensures Turns(a, [], a)
  {
  }

  /** The recurrence is the edit distance: attained by some script, beaten by none. */
  lemma LevIsEditDistance(a: string, b: string)
    ensures IsEditDistance(a, b, Lev(a, b))
  {
    var script := AttainingScript(a, b);
    forall s | Turns(a, s, b) ensures Lev(a, b) <= |s| {
      NoScriptIsShorter(a, s, b);
    }
  }

  // ---- The two-row loop -----------------------------------------------------

  /** `levenshtein`: two rows, filled in place and swapped. */
  method Levenshtein(a: string, b: string) returns (d: nat)
    ensures d == Lev(a, b)
    ensures IsEditDistance(a, b, d)
  {
    hide Lev, IsEditDistance;
    LevIsEditDistance(a, b);
    LevStep(a, b);
    if |a| == 0 {
      return |b|;
    }
    if |b| == 0 {
      return |a|;
    }
    var prev := new nat[|b| + 1](j => j);
    var curr := new nat[|b| + 1](_ => 0);
    forall k | 0 <= k <= |b| ensures prev[k] == Lev(a[..0], b[..k]) { LevStep(a[..0], b[..k]); }
    var i := 1;
    while i <= |a|
      invariant 1 <= i <= |a| + 1
      invariant prev != curr && fresh(prev) && fresh(curr)
      invariant prev.Length == curr.Length == |b| + 1
      invariant forall k :: 0 <= k <= |b| ==> prev[k] == Lev(a[..i - 1], b[..k])
    {
      curr[0] := i;
      LevStep(a[..i], b[..0]);
      var j := 1;
      while j <= |b|
        invariant 1 <= j <= |b| + 1
        invariant forall k :: 0 <= k <= |b| ==> prev[k] == Lev(a[..i - 1], b[..k])
        invariant forall k :: 0 <= k < j ==> curr[k] == Lev(a[..i], b[..k])
      {
        var cost := 1;
        if a[i - 1] == b[j - 1] {
          cost := 0;
        }
        var ins := curr[j - 1] + 1;
        var del := prev[j] + 1;
        var rep := prev[j - 1] + cost;
        assert a[..i][..i - 1] == a[..i - 1] && b[..j][..j - 1] == b[..j - 1];
        LevStep(a[..i], b[..j]);
        curr[j] := Min3(ins, del, rep);
        j := j + 1;
      }
      prev, curr := curr, prev;
      i := i + 1;
    }
    assert a[..|a|] == a && b[..|b|] == b;
    d := prev[|b|];
  }

  // ---- Suggestions ----------------------------------------------------------

  datatype Ranked = Ranked(name: string, dist: nat)

  /** The comparison handed to `sort.Slice`, as a reflexive order. */
  predicate RankLeq(x: Ranked, y: Ranked) {
    if x.dist != y.dist then x.dist < y.dist else Leq(x.name, y.name)
  }

  lemma RankLeqIsTotalPreorder()
    ensures TotalPreorder(RankLeq)
  {
    LeqIsTotalPreorder();
  }

  /** A pool entry qualifies: within two edits, or one word is a prefix of the other. */
  predicate Qualifies(input: string, candidate: string, lower: string -> string) {
    && candidate != ""
    && (|| Lev(lower(input), lower(candidate)) <= 2
        || lower(candidate) <= lower(input)
        || lower(input) <= lower(candidate))
  }

  function Qualifying(input: string, pool: seq<string>, lower: string -> string): seq<string> {
    if pool == [] then []
    else
      var n := |pool| - 1;
      Qualifying(input, pool[..n], lower) + if Qualifies(input, pool[n], lower) then [pool[n]] else []
  }

  lemma {:induction false} QualifyingCounts(input: string, pool: seq<string>, lower: string -> string, s: string)
    ensures multiset(Qualifying(input, pool, lower))[s] == if Qualifies(input, s, lower) then multiset(pool)[s] else 0
  {
    if pool != [] {
      var n := |pool| - 1;
      QualifyingCounts(input, pool[..n], lower, s);
      assert pool == pool[..n] + [pool[n]];
      hide Qualifies;
      AppendCounts(pool[..n], pool[n], s);
      AppendCounts(Qualifying(input, pool[..n], lower), pool[n], s);
    }
  }

  /** Each word as often as the pool has it, if it is within two edits of the input or one of the two
      is a prefix of the other, and not at all otherwise. */
  ghost predicate SuggestsFrom(out: seq<string>, input: string, pool: seq<string>, lower: string -> string) {
    forall s ::
      multiset(out)[s] ==
        if s != "" && (Lev(lower(input), lower(s)) <= 2 || lower(s) <= lower(input) || lower(input) <= lower(s))
        then multiset(pool)[s] else 0
  }

  lemma QualifyingSuggest(input: string, pool: seq<string>, lower: string -> string)
    ensures forall out :: multiset(out) == multiset(Qualifying(input, pool, lower)) ==>
              SuggestsFrom(out, input, pool, lower)
  {
    hide Qualifying;
    forall s ensures multiset(Qualifying(input, pool, lower))[s] ==
                       if Qualifies(input, s, lower) then multiset(pool)[s] else 0 {
      QualifyingCounts(input, pool, lower, s);
    }
  }

  lemma QualifyingSteps(input: string, pool: seq<string>, n: nat, lower: string -> string)
    ensures Qualifying(input, [], lower) == []
    ensures n < |pool| ==>
              Qualifying(input, pool[..n + 1], lower) ==
                Qualifying(input, pool[..n], lower) + if Qualifies(input, pool[n], lower) then [pool[n]] else []
  {
    if n < |pool| {
      assert pool[..n + 1][..n] == pool[..n];
    }
  }

  function Names(hits: seq<Ranked>): (r: seq<string>)
    ensures |r| == |hits|
    ensures forall i :: 0 <= i < |r| ==> r[i] == hits[i].name
  {
    seq(|hits|, i requires 0 <= i < |hits| => hits[i].name)
  }

  lemma NamesOfConcatenation(xs: seq<Ranked>, ys: seq<Ranked>)
    ensures Names(xs + ys) == Names(xs) + Names(ys)
  {
  }

  lemma RestOfPermutation(x: Ranked, rest: seq<Ranked>, before: seq<Ranked>, after: seq<Ranked>)
    requires multiset([x] + rest) == multiset(before + ([x] + after))
    ensures multiset(rest) == multiset(before + after)
  {
    assert multiset(rest) == multiset([x] + rest) - multiset{x};
    assert multiset(before + after) == multiset(before + ([x] + after)) - multiset{x};
  }

  /** Sorting cannot change which names are present, or how often. */
  lemma {:induction false} NamesOfPermutation(xs: seq<Ranked>, ys: seq<Ranked>)
    requires multiset(xs) == multiset(ys)
    ensures multiset(Names(xs)) == multiset(Names(ys))
    decreases |xs|
  {
    hide Names;
    assert |xs| == |multiset(xs)| == |multiset(ys)| == |ys|;
    if xs == [] {
      assert ys == [];
    } else {
      assert xs[0] in multiset(ys);
      var k :| 0 <= k < |ys| && ys[k] == xs[0];
      var head, before, after := [xs[0]], ys[..k], ys[k + 1..];
      assert xs == head + xs[1..] && ys == before + (head + after);
      RestOfPermutation(xs[0], xs[1..], before, after);
      NamesOfPermutation(xs[1..], before + after);
      NamesOfConcatenation(head, xs[1..]);
      NamesOfConcatenation(before, head + after);
      NamesOfConcatenation(head, after);
      NamesOfConcatenation(before, after);
    }
  }

  /** `DidYouMean`: exactly the qualifying pool entries, best distance first, ties by name.
      `lower` stands for `strings.ToLower`. */
  method DidYouMean(input: string, pool: seq<string>, lower: string -> string) returns (out: seq<string>)
    ensures input == "" ==> out == []
    ensures input != "" ==> multiset(out) == multiset(Qualifying(input, pool, lower))
    ensures input != "" ==> SuggestsFrom(out, input, pool, lower)
    ensures forall i, j :: 0 <= i < j < |out| ==>
              var x, y := Lev(lower(input), lower(out[i])), Lev(lower(input), lower(out[j]));
              x < y || (x == y && Leq(out[i], out[j]))
  {
    hide Qualifying, SuggestsFrom, RankLeq;
    QualifyingSuggest(input, pool, lower);
    QualifyingSteps(input, pool, 0, lower);
    if input == "" || |pool| == 0 {
      return [];
    }
    var inputLow := lower(input);
    var hits: seq<Ranked> := [];
    for n := 0 to |pool|
      invariant Names(hits) == Qualifying(input, pool[..n], lower)
      invariant forall i :: 0 <= i < |hits| ==> hits[i].dist == Lev(inputLow, lower(hits[i].name))
    {
      var candidate := pool[n];
      QualifyingSteps(input, pool, n, lower);
      if candidate == "" {
        continue;
      }
      var candidateLow := lower(candidate);
      var dist := Levenshtein(inputLow, candidateLow);
      var isPrefixMatch := candidateLow <= inputLow || inputLow <= candidateLow;
      if dist <= 2 || isPrefixMatch {
        hits := hits + [Ranked(candidate, dist)];
      }
    }
    assert pool[..|pool|] == pool;
    if |hits| == 0 {
      return [];
    }
    ghost var found := hits;
    hits := Sort(hits, RankLeq);
    RankLeqIsTotalPreorder();
    SortSorts(found, RankLeq);
    NamesOfPermutation(found, hits);
    forall i | 0 <= i < |hits| ensures hits[i].dist == Lev(inputLow, lower(hits[i].name)) {
      assert hits[i] in multiset(found);
    }
    out := Names(hits);
    RankedNames(hits, s => Lev(inputLow, lower(s)));
  }

  lemma RankedNames(hits: seq<Ranked>, dist: string -> nat)
    requires Sorted(hits, RankLeq) && forall i :: 0 <= i < |hits| ==> hits[i].dist == dist(hits[i].name)
    ensures var out := Names(hits);
            forall i, j :: 0 <= i < j < |out| ==>
              dist(out[i]) < dist(out[j]) || (dist(out[i]) == dist(out[j]) && Leq(out[i], out[j]))
  {
  }

  /** The ranked list is determined by its contract: pool order plays no part. */
  lemma SuggestionsAreUnique(input: string, out1: seq<string>, out2: seq<string>, dist: string -> nat)
    requires multiset(out1) == multiset(out2)
    requires forall out :: out == out1 || out == out2 ==> forall i, j :: 0 <= i < j < |out| ==>
               dist(out[i]) < dist(out[j]) || (dist(out[i]) == dist(out[j]) && Leq(out[i], out[j]))
    ensures out1 == out2
  {
    var le := (x: string, y: string) => RankLeq(Ranked(x, dist(x)), Ranked(y, dist(y)));
    forall x, y | x in out1 && y in out1 && le(x, y) && le(y, x) ensures x == y { LeqIsTotal(x, y); }
    SortedIsUnique(out1, out2, le);
  }
}
