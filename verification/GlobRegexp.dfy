/** The glob compiler of internal/commands/hooks/postuse_glob.go.  The text it emits is read
    back by a parser for the regexp subset it uses, and the language of what was read is
    compared with what the glob means. */
module GlobRegexp {
  import opened Options
  import opened Text

  // ---- What a glob means ----------------------------------------------------

  /** `*` and `?` stay inside one path component; `**` crosses components and absorbs one
      following separator; a backslash is a separator; every other character stands for itself.  `lines` says whether
      `**` may also cross a newline. */
  ghost predicate GlobMatch(p: string, s: string, lines: bool)
    decreases |p|
  {
    if p == "" then s == ""
    else if p[0] == '*' && |p| > 1 && p[1] == '*' then
      exists k :: 0 <= k <= |s| && (lines || '\n' !in s[..k]) && GlobMatch(AfterDoubleStar(p), s[k..], lines)
    else if p[0] == '*' then
      exists k :: 0 <= k <= |s| && '/' !in s[..k] && GlobMatch(p[1..], s[k..], lines)
    else
      && s != ""
      && (if p[0] == '?' then s[0] != '/' else if p[0] == '\\' then s[0] == '/' else s[0] == p[0])
      && GlobMatch(p[1..], s[1..], lines)
  }

  function AfterDoubleStar(p: string): (rest: string)
    requires |p| >= 2
    ensures |rest| < |p|
  {
    if |p| > 2 && (p[2] == '/' || p[2] == '\\') then p[3..] else p[2..]
  }

  // ---- The regexp subset ----------------------------------------------------

  datatype Class = AnyButNewline | NotSlash | Only(c: char)

  datatype Item = One(cls: Class) | Many(cls: Class)

  predicate InClass(c: char, cls: Class) {
    match cls
    case AnyButNewline => c != '\n'
    case NotSlash => c != '/'
    case Only(d) => c == d
  }

  /** The language of a concatenation of classes and starred classes. */
  ghost predicate Matches(items: seq<Item>, s: string)
    decreases |items|
  {
    if items == [] then s == ""
    else if items[0].One? then s != "" && InClass(s[0], items[0].cls) && Matches(items[1..], s[1..])
    else exists k :: 0 <= k <= |s| && AllIn(s[..k], items[0].cls) && Matches(items[1..], s[k..])
  }

  predicate AllIn(s: string, cls: Class) { forall c :: c in s ==> InClass(c, cls) }

  /** The characters that are operators in a regexp. */
  const OPERATORS := "\\.+*?()|[]{}^$"

  /** One atom at the start of `t`, and the text after it. */
  function ParseAtom(t: string): (r: Option<(Class, string)>)
    ensures r.Some? ==> |r.value.1| < |t|
  {
    if t == "" then None
    else if t[0] == '.' then Some((AnyButNewline, t[1..]))
    else if "[^/]" <= t then Some((NotSlash, t[4..]))
    else if t[0] == '\\' then (if |t| > 1 && t[1] in OPERATORS then Some((Only(t[1]), t[2..])) else None)
    else if t[0] in OPERATORS then None
    else Some((Only(t[0]), t[1..]))
  }

  function ParseItems(t: string): Option<seq<Item>>
    decreases |t|
  {
    if t == "" then Some([])
    else
      match ParseAtom(t)
      case None => None
      case Some((cls, rest)) =>
        var starred := rest != "" && rest[0] == '*';
        match ParseItems(if starred then rest[1..] else rest)
        case None => None
        case Some(items) => Some([if starred then Many(cls) else One(cls)] + items)
  }

  /** A regexp anchored at both ends. */
  function ParseAnchored(t: string): Option<seq<Item>> {
    if |t| >= 2 && t[0] == '^' && t[|t| - 1] == '$' then ParseItems(t[1..|t| - 1]) else None
  }

  ghost predicate Accepts(t: string, s: string) {
    ParseAnchored(t).Some? && Matches(ParseAnchored(t).value, s)
  }

  // ---- The compiler ---------------------------------------------------------

  predicate IsMeta(c: char) {
    c in ".+^$|()\\[]{}"
  }

  function Escaped(c: char): string { if IsMeta(c) then ['\\', c] else [c] }

  function Emitted(p: string): string
    decreases |p|
  {
    if p == "" then ""
    else if p[0] == '*' && |p| > 1 && p[1] == '*' then ".*" + Emitted(AfterDoubleStar(p))
    else if p[0] == '*' then "[^/]*" + Emitted(p[1..])
    else if p[0] == '?' then "[^/]" + Emitted(p[1..])
    else Escaped(p[0]) + Emitted(p[1..])
  }

  /** `globPatternToRE`: the regexp text. */
  method GlobPatternToRe(glob: string) returns (text: string)
    ensures text == "^" + Emitted(Posix(glob)) + "$"
    ensures forall s :: Accepts(text, s) <==> GlobMatch(glob, s, false)
    ensures '*' !in glob && '?' !in glob && '\\' !in glob ==> forall s :: Accepts(text, s) <==> s == glob
  {
    var pattern := Posix(glob);
    var b := "^";
    var i := 0;
    while i < |pattern|
      invariant i <= |pattern|
      invariant b + Emitted(pattern[i..]) == "^" + Emitted(pattern)
    {
      var c := pattern[i];
      ghost var at := i;
      ghost var before := b;
      EmittedStep(pattern[i..]);
      if c == '*' {
        if i + 1 < |pattern| && pattern[i + 1] == '*' {
          b := b + ".*";
          i := i + 1;
          if i + 1 < |pattern| && pattern[i + 1] == '/' {
            i := i + 1;
          }
        } else {
          b := b + "[^/]*";
        }
      } else if c == '?' {
        b := b + "[^/]";
      } else {
        if IsMeta(c) {
          b := b + "\\";
        }
        b := b + [c];
      }
      i := i + 1;
      StepMatchesLoop(pattern, at, i, before, b);
    }
    assert pattern[i..] == "" && b + "" == b;
    text := b + "$";
    assert text == "^" + Emitted(Posix(glob)) + "$";
    forall s ensures Accepts(text, s) <==> GlobMatch(glob, s, false)
             ensures '*' !in glob && '?' !in glob && '\\' !in glob ==> (Accepts(text, s) <==> s == glob)
    {
      CompilerIsCorrect(glob, s);
      if '*' !in glob && '?' !in glob {
        LiteralsMatchThemselves(glob, s);
      }
    }
  }

  /** What the first construct of a pattern emits, and how long it is. */
  function FirstEmitted(p: string): (string, nat)
    requires p != ""
  {
    if p[0] == '*' && |p| > 1 && p[1] == '*' then (".*", |p| - |AfterDoubleStar(p)|)
    else if p[0] == '*' then ("[^/]*", 1)
    else if p[0] == '?' then ("[^/]", 1)
    else (Escaped(p[0]), 1)
  }

  lemma {:induction false} EmittedStep(p: string)
    requires p != ""
    ensures var (text, n) := FirstEmitted(p); 1 <= n <= |p| && Emitted(p) == text + Emitted(p[n..])
  {
  }

  lemma {:induction false} StepMatchesLoop(pattern: string, at: nat, next: nat, before: string, after: string)
    requires at < next <= |pattern| && next - at == FirstEmitted(pattern[at..]).1
    requires after == before + FirstEmitted(pattern[at..]).0
    requires Emitted(pattern[at..]) == FirstEmitted(pattern[at..]).0 + Emitted(pattern[at..][next - at..])
    ensures after + Emitted(pattern[next..]) == before + Emitted(pattern[at..])
  {
    hide Emitted, FirstEmitted;
    assert pattern[at..][next - at..] == pattern[next..];
  }

  // ---- Reading the emitted text back ----------------------------------------

  function ItemsOf(p: string): seq<Item>
    decreases |p|
  {
    if p == "" then []
    else if p[0] == '*' && |p| > 1 && p[1] == '*' then [Many(AnyButNewline)] + ItemsOf(AfterDoubleStar(p))
    else if p[0] == '*' then [Many(NotSlash)] + ItemsOf(p[1..])
    else if p[0] == '?' then [One(NotSlash)] + ItemsOf(p[1..])
    else [One(Only(p[0]))] + ItemsOf(p[1..])
  }

  lemma {:induction false} ParsesOne(c: char, rest: string)
    requires c != '*' && c != '?'
    requires rest == "" || rest[0] != '*'
    requires ParseItems(rest).Some?
    ensures ParseItems(Escaped(c) + rest) == Some([One(Only(c))] + ParseItems(rest).value)
  {
    var t := Escaped(c) + rest;
    assert t[|Escaped(c)|..] == rest;
    if IsMeta(c) {
      assert t[0] == '\\' && t[1] == c && c in OPERATORS;
    } else {
      assert c !in OPERATORS;
    }
    assert ParseAtom(t) == Some((Only(c), rest));
  }

  lemma {:induction false} ParsesQuestionMark(rest: string)
    requires rest == "" || rest[0] != '*'
    requires ParseItems(rest).Some?
    ensures ParseItems("[^/]" + rest) == Some([One(NotSlash)] + ParseItems(rest).value)
  {
    var t := "[^/]" + rest;
    assert t[..4] == "[^/]" && t[4..] == rest;
    assert ParseAtom(t) == Some((NotSlash, rest));
  }

  lemma {:induction false} ParsesStar(rest: string)
    requires ParseItems(rest).Some?
    ensures ParseItems("[^/]*" + rest) == Some([Many(NotSlash)] + ParseItems(rest).value)
  {
    var t := "[^/]*" + rest;
    assert t[..4] == "[^/]" && t[4..] == "*" + rest && t[4..][1..] == rest;
    assert ParseAtom(t) == Some((NotSlash, "*" + rest));
  }

  lemma {:induction false} ParsesDoubleStar(rest: string)
    requires ParseItems(rest).Some?
    ensures ParseItems(".*" + rest) == Some([Many(AnyButNewline)] + ParseItems(rest).value)
  {
    var t := ".*" + rest;
    assert t[1..] == "*" + rest && t[1..][1..] == rest;
    assert ParseAtom(t) == Some((AnyButNewline, "*" + rest));
  }

  /** Emission and parsing are inverse: no character is swallowed by the operator of its
      neighbour. */
  lemma {:induction false} EmittedParses(p: string)
    ensures ParseItems(Emitted(p)) == Some(ItemsOf(p))
    ensures Emitted(p) != "" ==> Emitted(p)[0] != '*'
    decreases |p|
  {
    hide ParseItems;
    if p == "" {
      NothingParses();
    } else if p[0] == '*' && |p| > 1 && p[1] == '*' {
      EmittedParses(AfterDoubleStar(p));
      ParsesDoubleStar(Emitted(AfterDoubleStar(p)));
    } else {
      EmittedParses(p[1..]);
      if p[0] == '*' {
        ParsesStar(Emitted(p[1..]));
      } else if p[0] == '?' {
        ParsesQuestionMark(Emitted(p[1..]));
      } else {
        ParsesOne(p[0], Emitted(p[1..]));
      }
    }
  }

  lemma NothingParses()
    ensures ParseItems("") == Some([])
  {
  }

  // ---- Same language --------------------------------------------------------

  lemma {:induction false} ItemsMeanGlob(p: string, s: string)
    ensures Matches(ItemsOf(Posix(p)), s) <==> GlobMatch(p, s, false)
    decreases |p|
  {
    var items := ItemsOf(Posix(p));
    if p == "" {
    } else if p[0] == '*' && |p| > 1 && p[1] == '*' {
      var rest := AfterDoubleStar(p);
      assert Posix(rest) == AfterDoubleStar(Posix(p));
      assert items[1..] == ItemsOf(Posix(rest));
      forall k | 0 <= k <= |s|
        ensures AllIn(s[..k], AnyButNewline) <==> '\n' !in s[..k]
        ensures Matches(items[1..], s[k..]) <==> GlobMatch(rest, s[k..], false)
      {
        ItemsMeanGlob(rest, s[k..]);
      }
    } else {
      var rest := p[1..];
      assert Posix(rest) == Posix(p)[1..];
      assert items[1..] == ItemsOf(Posix(rest));
      forall k | 0 <= k <= |s|
        ensures AllIn(s[..k], NotSlash) <==> '/' !in s[..k]
        ensures Matches(items[1..], s[k..]) <==> GlobMatch(rest, s[k..], false)
      {
        ItemsMeanGlob(rest, s[k..]);
      }
    }
  }

  /** For every glob and every path, the emitted regexp accepts the path exactly when the
      glob matches it without letting `**` cross a newline. */
  lemma {:induction false} CompilerIsCorrect(glob: string, s: string)
    ensures Accepts("^" + Emitted(Posix(glob)) + "$", s) <==> GlobMatch(glob, s, false)
  {
    var body := Emitted(Posix(glob));
    var text := "^" + body + "$";
    assert text[1..|text| - 1] == body;
    EmittedParses(Posix(glob));
    ItemsMeanGlob(glob, s);
    hide ParseItems, Matches, GlobMatch, Emitted;
  }

  // ---- Newlines -------------------------------------------------------------

  predicate HasDoubleStar(p: string) { exists i :: 0 <= i < |p| - 1 && p[i] == '*' && p[i + 1] == '*' }

  /** Restricting `**` to one line can only lose matches. */
  lemma {:induction false} OneLineIsStricter(p: string, s: string)
    requires GlobMatch(p, s, false)
    ensures GlobMatch(p, s, true)
    decreases |p|
  {
    if p == "" {
    } else if p[0] == '*' && |p| > 1 && p[1] == '*' {
      var k :| 0 <= k <= |s| && '\n' !in s[..k] && GlobMatch(AfterDoubleStar(p), s[k..], false);
      OneLineIsStricter(AfterDoubleStar(p), s[k..]);
    } else if p[0] == '*' {
      var k :| 0 <= k <= |s| && '/' !in s[..k] && GlobMatch(p[1..], s[k..], false);
      OneLineIsStricter(p[1..], s[k..]);
    } else {
      OneLineIsStricter(p[1..], s[1..]);
    }
  }

  /** ... and loses none on paths without newlines, nor for globs without `**`. */
  lemma {:induction false} NewlinesDoNotMatter(p: string, s: string)
    requires '\n' !in s || !HasDoubleStar(p)
    requires GlobMatch(p, s, true)
    ensures GlobMatch(p, s, false)
    decreases |p|
  {
    if p == "" {
    } else if p[0] == '*' && |p| > 1 && p[1] == '*' {
      var k :| 0 <= k <= |s| && GlobMatch(AfterDoubleStar(p), s[k..], true);
      NewlinesDoNotMatter(AfterDoubleStar(p), s[k..]);
    } else {
      TailWithoutDoubleStar(p);
      if p[0] == '*' {
        var k :| 0 <= k <= |s| && '/' !in s[..k] && GlobMatch(p[1..], s[k..], true);
        NewlinesDoNotMatter(p[1..], s[k..]);
      } else {
        NewlinesDoNotMatter(p[1..], s[1..]);
      }
    }
  }

  lemma {:induction false} TailWithoutDoubleStar(p: string)
    requires p != ""
    ensures HasDoubleStar(p[1..]) ==> HasDoubleStar(p)
  {
    if HasDoubleStar(p[1..]) {
      var i :| 0 <= i < |p[1..]| - 1 && p[1..][i] == '*' && p[1..][i + 1] == '*';
      assert p[i + 1] == '*' && p[i + 1 + 1] == '*';
    }
  }

  /** The regexp is the glob on every newline-free path. */
  lemma {:induction false} CorrectOnPaths(glob: string, s: string)
    requires '\n' !in s
    ensures Accepts("^" + Emitted(Posix(glob)) + "$", s) <==> GlobMatch(glob, s, true)
  {
    CompilerIsCorrect(glob, s);
    if GlobMatch(glob, s, true) { NewlinesDoNotMatter(glob, s); }
    if GlobMatch(glob, s, false) { OneLineIsStricter(glob, s); }
  }

  /** `n` components that each consist of one newline. */
  function Ladder(n: nat): string { if n == 0 then "/" else "/\n" + Ladder(n - 1) }

  /** Slashes that are directly followed by a newline. */
  function Rungs(s: string): nat {
    if |s| < 2 then 0 else (if s[0] == '/' && s[1] == '\n' then 1 else 0) + Rungs(s[1..])
  }

  /** A path that the glob matches with a ladder for every `**`. */
  function Sample(p: string, n: nat): string
    decreases |p|
  {
    if p == "" then ""
    else if p[0] == '*' && |p| > 1 && p[1] == '*' then Ladder(n) + Sample(AfterDoubleStar(p), n)
    else if p[0] == '*' then Sample(p[1..], n)
    else [if p[0] == '?' then 'a' else Canonical(p[0])] + Sample(p[1..], n)
  }

  lemma {:induction false} SampleMatches(p: string, n: nat)
    ensures GlobMatch(p, Sample(p, n), true)
    decreases |p|
  {
    var s := Sample(p, n);
    if p == "" {
    } else if p[0] == '*' && |p| > 1 && p[1] == '*' {
      SampleMatches(AfterDoubleStar(p), n);
      assert s[|Ladder(n)|..] == Sample(AfterDoubleStar(p), n);
    } else if p[0] == '*' {
      SampleMatches(p[1..], n);
      assert s[0..] == s && s[..0] == "";
    } else {
      SampleMatches(p[1..], n);
      assert s[1..] == Sample(p[1..], n);
    }
  }

  lemma {:induction false} RungsOfTail(a: string, t: string)
    ensures Rungs(a + t) >= Rungs(t)
  {
    if a == "" {
      assert a + t == t;
    } else {
      RungsOfTail(a[1..], t);
      assert (a + t)[1..] == a[1..] + t;
    }
  }

  lemma {:induction false} RungsOfLadder(n: nat, t: string)
    ensures Rungs(Ladder(n) + t) >= n
  {
    if n > 0 {
      var s := Ladder(n) + t;
      RungsOfLadder(n - 1, t);
      assert s[1..] == "\n" + (Ladder(n - 1) + t);
      RungsOfTail("\n", Ladder(n - 1) + t);
      assert s[0] == '/' && s[1] == '\n';
    }
  }

  /** Text without newlines holds no complete rung, text without slashes starts none. */
  lemma {:induction false} RungsSkip(s: string, k: nat)
    requires k <= |s| && ('\n' !in s[..k] || '/' !in s[..k])
    ensures '/' !in s[..k] ==> Rungs(s) == Rungs(s[k..])
    ensures Rungs(s) <= Rungs(s[k..]) + 1
  {
    if k == 0 {
      assert s[0..] == s;
    } else {
      assert s[..k][0] == s[0] && s[..k][1..] == s[1..][..k - 1] && s[1..][k - 1..] == s[k..];
      RungsSkip(s[1..], k - 1);
      if k > 1 {
        assert s[..k][1] == s[1];
      } else {
        assert s[1..][0..] == s[1..];
      }
    }
  }

  /** A match on one line pays for every rung with a character of the pattern. */
  lemma {:induction false} RungsAreBounded(p: string, s: string)
    requires GlobMatch(p, s, false)
    ensures Rungs(s) <= |p|
    decreases |p|
  {
    if p == "" {
    } else if p[0] == '*' && |p| > 1 && p[1] == '*' {
      var k :| 0 <= k <= |s| && '\n' !in s[..k] && GlobMatch(AfterDoubleStar(p), s[k..], false);
      RungsAreBounded(AfterDoubleStar(p), s[k..]);
      RungsSkip(s, k);
    } else if p[0] == '*' {
      var k :| 0 <= k <= |s| && '/' !in s[..k] && GlobMatch(p[1..], s[k..], false);
      RungsAreBounded(p[1..], s[k..]);
      RungsSkip(s, k);
    } else {
      RungsAreBounded(p[1..], s[1..]);
    }
  }

  lemma {:induction false} SampleIsHigh(p: string, n: nat)
    requires HasDoubleStar(p)
    ensures Rungs(Sample(p, n)) >= n
    decreases |p|
  {
    if p[0] == '*' && |p| > 1 && p[1] == '*' {
      RungsOfLadder(n, Sample(AfterDoubleStar(p), n));
    } else {
      var i :| 0 <= i < |p| - 1 && p[i] == '*' && p[i + 1] == '*';
      assert p[1..][i - 1] == '*' && p[1..][i - 1 + 1] == '*';
      SampleIsHigh(p[1..], n);
      var first := [if p[0] == '?' then 'a' else Canonical(p[0])];
      RungsOfTail(first, Sample(p[1..], n));
    }
  }

  /** The regexp falls short of the glob, on paths with newlines, exactly for the globs that
      contain `**`. */
  lemma NewlinesMatterIff(glob: string)
    ensures (forall s :: Accepts("^" + Emitted(Posix(glob)) + "$", s) <==> GlobMatch(glob, s, true)) <==>
        !HasDoubleStar(glob)
  {
    hide Accepts, Emitted, GlobMatch, HasDoubleStar, Sample;
    forall s
      ensures Accepts("^" + Emitted(Posix(glob)) + "$", s) <==> GlobMatch(glob, s, false)
      ensures GlobMatch(glob, s, false) ==> GlobMatch(glob, s, true)
      ensures !HasDoubleStar(glob) && GlobMatch(glob, s, true) ==> GlobMatch(glob, s, false)
    {
      CompilerIsCorrect(glob, s);
      if GlobMatch(glob, s, false) { OneLineIsStricter(glob, s); }
      if !HasDoubleStar(glob) && GlobMatch(glob, s, true) { NewlinesDoNotMatter(glob, s); }
    }
    if HasDoubleStar(glob) {
      var s := Sample(glob, |glob| + 1);
      SampleMatches(glob, |glob| + 1);
      SampleIsHigh(glob, |glob| + 1);
      if GlobMatch(glob, s, false) { RungsAreBounded(glob, s); }
      assert Accepts("^" + Emitted(Posix(glob)) + "$", s) != GlobMatch(glob, s, true);
    }
  }

  // ---- What matching preserves ----------------------------------------------

  function Separators(s: string): nat {
    if s == "" then 0 else (if Canonical(s[0]) == '/' then 1 else 0) + Separators(s[1..])
  }

  lemma {:induction false} SeparatorsSkip(s: string, k: nat)
    requires k <= |s| && '/' !in s[..k] && '\\' !in s
    ensures Separators(s) == Separators(s[k..])
  {
    if k > 0 {
      assert s[0] == s[..k][0];
      assert s[1..][..k - 1] == s[..k][1..];
      SeparatorsSkip(s[1..], k - 1);
      assert s[1..][k - 1..] == s[k..];
    } else {
      assert s[0..] == s;
    }
  }

  /** Without `**` no match crosses a separator: path and pattern have equally many. */
  lemma {:induction false} ComponentsArePreserved(p: string, s: string, lines: bool)
    requires !HasDoubleStar(p) && '\\' !in s && GlobMatch(p, s, lines)
    ensures Separators(s) == Separators(p)
    decreases |p|
  {
    if p != "" {
      TailWithoutDoubleStar(p);
      assert !(|p| > 1 && p[0] == '*' && p[0 + 1] == '*');
      if p[0] == '*' {
        var k :| 0 <= k <= |s| && '/' !in s[..k] && GlobMatch(p[1..], s[k..], lines);
        SeparatorsSkip(s, k);
        ComponentsArePreserved(p[1..], s[k..], lines);
      } else {
        ComponentsArePreserved(p[1..], s[1..], lines);
      }
    }
  }

  /** A pattern without wildcards matches exactly its own text with slashes for backslashes,
      whatever regexp operators it contains. */
  lemma {:induction false} LiteralsMatchThemselves(p: string, s: string)
    requires '*' !in p && '?' !in p
    ensures GlobMatch(p, s, false) <==>
              |s| == |p| && forall i :: 0 <= i < |p| ==> s[i] == if p[i] == '\\' then '/' else p[i]
    ensures '\\' !in p ==> (GlobMatch(p, s, false) <==> s == p)
    decreases |p|
  {
    if p != "" {
      if s != "" {
        LiteralsMatchThemselves(p[1..], s[1..]);
        assert p == [p[0]] + p[1..] && s == [s[0]] + s[1..];
      }
    }
  }

  /** Each wildcard on its own: `*` is one component, possibly empty, `?` one character of a
      component, and `**`, with or without a separator, any one line. */
  lemma WildcardsAlone(s: string)
    ensures Accepts("^" + Emitted("*") + "$", s) <==> '/' !in s
    ensures Accepts("^" + Emitted("?") + "$", s) <==> |s| == 1 && s != "/"
    ensures Accepts("^" + Emitted("**") + "$", s) <==> '\n' !in s
    ensures Accepts("^" + Emitted("**/") + "$", s) <==> '\n' !in s
  {
    CompilerIsCorrect("*", s);
    CompilerIsCorrect("?", s);
    CompilerIsCorrect("**", s);
    CompilerIsCorrect("**/", s);
    assert s[..|s|] == s && s[|s|..] == "";
    hide Emitted, Accepts;
  }

  /** `**` followed by a separator also absorbs it: the rest may match anywhere in the path,
      even in the middle of a component. */
  lemma {:induction false} DoubleStarSlashAbsorbs(p: string, prefix: string, s: string)
    requires '\n' !in prefix && GlobMatch(p, s, false)
    ensures Accepts("^" + Emitted(Posix("**/" + p)) + "$", prefix + s)
  {
    var glob, path := "**/" + p, prefix + s;
    assert AfterDoubleStar(glob) == p;
    assert path[..|prefix|] == prefix && path[|prefix|..] == s;
    CompilerIsCorrect(glob, path);
  }
}
