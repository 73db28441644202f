/** The shell skeleton scanner of internal/hooks/strip_quoted.go.  Every construct is described
    by how many characters it takes off the front of the remaining text. */
module StripQuoted {
  import opened Options
  import opened Text

  // ---- Heredocs -------------------------------------------------------------

  predicate IsSpace(c: char) { c in " \t\n\r" || c == '\U{000C}' }

  predicate IsNameStart(c: char) { IsLetter(c) || c == '_' }

  predicate IsNameChar(c: char) { IsNameStart(c) || IsDigit(c) }

  function SpaceRun(t: string): (n: nat)
    ensures n <= |t|
  {
    if t != "" && IsSpace(t[0]) then 1 + SpaceRun(t[1..]) else 0
  }

  function NameRun(t: string): (n: nat)
    ensures n <= |t|
  {
    if t != "" && IsNameChar(t[0]) then 1 + NameRun(t[1..]) else 0
  }

  /** Position of the closing quote of a non-empty delimiter on one line. */
  function QuotedRun(t: string, quote: char): (n: nat)
    ensures n <= |t|
  {
    if t != "" && t[0] != quote && t[0] != '\n' then 1 + QuotedRun(t[1..], quote) else 0
  }

  datatype Header = Header(length: nat, delim: string)

  /** The delimiter word at the start of `t`: quoted on one line, or a name. */
  function WordOf(t: string): (r: Option<Header>)
    ensures r.Some? ==> 0 < r.value.length <= |t| && r.value.delim != ""
  {
    if t == "" then None
    else if t[0] == '\'' || t[0] == '"' then
      var n := QuotedRun(t[1..], t[0]);
      if n > 0 && n + 1 < |t| && t[n + 1] == t[0] then Some(Header(n + 2, t[1..n + 1])) else None
    else if IsNameStart(t[0]) then Some(Header(NameRun(t), t[..NameRun(t)]))
    else None
  }

  /** `heredocHeaderRE` at the start of `t`: `<<`, an optional dash, white space, a delimiter. */
  function HeaderOf(t: string): (r: Option<Header>)
    ensures r.Some? ==> 2 < r.value.length <= |t| && r.value.delim != ""
  {
    if !("<<" <= t) then None
    else
      var dash := if |t| > 2 && t[2] == '-' then 3 else 2;
      var at := dash + SpaceRun(t[dash..]);
      match WordOf(t[at..])
      case None => None
      case Some(word) => Some(Header(at + word.length, word.delim))
  }

  function LineRun(t: string): (n: nat)
    ensures n <= |t|
  {
    if t != "" && t[0] != '\n' then 1 + LineRun(t[1..]) else 0
  }

  /** Tabs and blanks, then exactly the delimiter. */
  predicate ClosesHeredoc(line: string, delim: string) {
    && |delim| <= |line|
    && line[|line| - |delim|..] == delim
    && forall i :: 0 <= i < |line| - |delim| ==> line[i] == '\t' || line[i] == ' '
  }

  /** End of the first closing line of `body`, including its newline. */
  function TerminatorEnd(body: string, delim: string): (r: Option<nat>)
    ensures r.Some? ==> 0 < r.value <= |body|
  {
    if body == "" then None
    else
      var line := LineRun(body[1..]);
      if body[0] == '\n' && ClosesHeredoc(body[1..1 + line], delim) then
        Some(1 + line + if 1 + line < |body| then 1 else 0)
      else
        match TerminatorEnd(body[1..], delim)
        case None => None
        case Some(n) => Some(n + 1)
  }

  /** How much a heredoc at the start of `t` takes; everything if its body never ends. */
  function HeredocLen(t: string): (r: Option<nat>)
    ensures r.Some? ==> 0 < r.value <= |t|
    ensures r.Some? <==> HeaderOf(t).Some?
  {
    match HeaderOf(t)
    case None => None
    case Some(h) =>
      match TerminatorEnd(t[h.length..], h.delim)
      case None => Some(|t|)
      case Some(n) => Some(h.length + n)
  }

  /** `skipHeredoc`. */
  method SkipHeredoc(input: string, start: nat) returns (end: nat, ok: bool)
    requires start <= |input|
    ensures ok <==> HeredocLen(input[start..]).Some?
    ensures ok ==> end == start + HeredocLen(input[start..]).value
  {
    var rest := input[start..];
    var m := HeaderOf(rest);
    if m.None? {
      return 0, false;
    }
    var headerEnd := start + m.value.length;
    assert input[headerEnd..] == rest[m.value.length..];
    var loc := TerminatorEnd(input[headerEnd..], m.value.delim);
    if loc.None? {
      return |input|, true;
    }
    return headerEnd + loc.value, true;
  }

  lemma {:induction false} SpaceRunIs(t: string)
    ensures var n := SpaceRun(t); (forall c :: c in t[..n] ==> IsSpace(c)) && (n < |t| ==> !IsSpace(t[n]))
  {
    if t != "" && IsSpace(t[0]) {
      SpaceRunIs(t[1..]);
      assert t[..SpaceRun(t)] == [t[0]] + t[1..][..SpaceRun(t[1..])];
    }
  }

  lemma {:induction false} NameRunIs(t: string)
    ensures var n := NameRun(t); (forall c :: c in t[..n] ==> IsNameChar(c)) && (n < |t| ==> !IsNameChar(t[n]))
  {
    if t != "" && IsNameChar(t[0]) {
      NameRunIs(t[1..]);
      assert t[..NameRun(t)] == [t[0]] + t[1..][..NameRun(t[1..])];
    }
  }

  lemma {:induction false} QuotedRunIs(t: string, quote: char)
    ensures var n := QuotedRun(t, quote);
            quote !in t[..n] && '\n' !in t[..n] && (n < |t| ==> t[n] == quote || t[n] == '\n')
  {
    if t != "" && t[0] != quote && t[0] != '\n' {
      QuotedRunIs(t[1..], quote);
      assert t[..QuotedRun(t, quote)] == [t[0]] + t[1..][..QuotedRun(t[1..], quote)];
    }
  }

  /** The word of a header, with `rest` behind it: a quoted delimiter on one line, or a whole name. */
  predicate Delimits(word: string, delim: string, rest: string) {
    && delim != ""
    && (|| (word == "'" + delim + "'" && '\'' !in delim && '\n' !in delim)
        || (word == "\"" + delim + "\"" && '"' !in delim && '\n' !in delim)
        || (&& word == delim && IsNameStart(delim[0]) && (forall c :: c in delim ==> IsNameChar(c))
            && (rest == "" || !IsNameChar(rest[0]))))
  }

  /** A run that stops where `rest` begins. */
  lemma RunsStopAt(t: string, n: nat, m: nat, p: char -> bool)
    requires n <= |t| && m <= |t|
    requires (forall c :: c in t[..n] ==> p(c)) && (n < |t| ==> !p(t[n]))
    requires (forall c :: c in t[..m] ==> p(c)) && (m < |t| ==> !p(t[m]))
    ensures n == m
  {
    assert forall i :: 0 <= i < n ==> t[i] in t[..n];
    assert forall i :: 0 <= i < m ==> t[i] in t[..m];
  }

  lemma WordAt(word: string, delim: string, rest: string)
    requires Delimits(word, delim, rest)
    ensures WordOf(word + rest) == Some(Header(|word|, delim))
  {
    if word == delim {
      NameAt(word, rest);
    } else {
      QuotedAt(word[0], delim, rest);
      assert word == [word[0]] + delim + [word[0]];
      assert word + rest == [word[0]] + (delim + ([word[0]] + rest));
    }
  }

  lemma NameAt(word: string, rest: string)
    requires word != "" && IsNameStart(word[0]) && forall c :: c in word ==> IsNameChar(c)
    requires rest == "" || !IsNameChar(rest[0])
    ensures WordOf(word + rest) == Some(Header(|word|, word))
  {
    hide NameRun;
    var v := word + rest;
    assert v[..|word|] == word && v[|word|..] == rest;
    NameRunIs(v);
    RunsStopAt(v, NameRun(v), |word|, (c: char) => IsNameChar(c));
  }

  lemma QuotedAt(quote: char, delim: string, rest: string)
    requires (quote == '\'' || quote == '"') && delim != "" && quote !in delim && '\n' !in delim
    ensures WordOf([quote] + (delim + ([quote] + rest))) == Some(Header(|delim| + 2, delim))
  {
    hide QuotedRun;
    var w := delim + ([quote] + rest);
    var v := [quote] + w;
    assert v[1..] == w && w[..|delim|] == delim && w[|delim|] == quote;
    QuotedRunIs(w, quote);
    RunsStopAt(w, QuotedRun(w, quote), |delim|, (c: char) => c != quote && c != '\n');
    assert v[|delim| + 1] == w[|delim|] && v[1..|delim| + 1] == w[..|delim|];
  }

  lemma WordIs(t: string)
    requires WordOf(t).Some?
    ensures var Header(n, delim) := WordOf(t).value; Delimits(t[..n], delim, t[n..])
  {
    hide NameRun, QuotedRun;
    var Header(n, delim) := WordOf(t).value;
    if t[0] == '\'' || t[0] == '"' {
      QuotedRunIs(t[1..], t[0]);
      assert t[1..][..n - 2] == delim && t[..n] == [t[0]] + delim + [t[0]];
    } else {
      NameRunIs(t);
    }
  }

  /** Every header is recognised: `<<`, an optional dash, white space, and such a word ... */
  lemma WordHeader(dash: string, blanks: string, word: string, delim: string, rest: string)
    requires (dash == "" || dash == "-") && (forall c :: c in blanks ==> IsSpace(c)) && Delimits(word, delim, rest)
    ensures HeaderOf("<<" + (dash + (blanks + (word + rest)))) == Some(Header(2 + |dash| + |blanks| + |word|, delim))
  {
    hide WordOf, HeaderOf;
    WordAt(word, delim, rest);
    assert word[0] in "'\"" || IsNameStart(word[0]);
    hide Delimits;
    BlanksBefore(dash, blanks, word + rest);
  }

  lemma BlanksBefore(dash: string, blanks: string, v: string)
    requires (dash == "" || dash == "-") && forall c :: c in blanks ==> IsSpace(c)
    requires v != "" && v[0] != '-' && !IsSpace(v[0]) && WordOf(v).Some?
    ensures HeaderOf("<<" + (dash + (blanks + v))) ==
              Some(Header(2 + |dash| + |blanks| + WordOf(v).value.length, WordOf(v).value.delim))
  {
    hide SpaceRun, WordOf;
    var u := blanks + v;
    var at := 2 + |dash| + |blanks|;
    RunOfBlanks(blanks, v);
    DashBefore(dash, u);
    var t := "<<" + (dash + u);
    assert t[at..] == v by {
      assert t[2 + |dash|..][|blanks|..] == u[|blanks|..] == v;
    }
  }

  lemma DashBefore(dash: string, u: string)
    requires (dash == "" || dash == "-") && u != ""
    ensures var t := "<<" + (dash + u);
            "<<" <= t && |t| > 2 && (u[0] != '-' ==> (t[2] == '-' <==> dash == "-")) && t[2 + |dash|..] == u
  {
    var t := "<<" + (dash + u);
    assert t[..2] == "<<" && t[2..] == dash + u;
    assert t[2] == (dash + u)[0];
  }

  lemma RunOfBlanks(blanks: string, v: string)
    requires forall c :: c in blanks ==> IsSpace(c)
    requires v != "" && v[0] != '-' && !IsSpace(v[0])
    ensures SpaceRun(blanks + v) == |blanks| && (blanks + v)[0] != '-'
  {
    hide SpaceRun;
    var u := blanks + v;
    assert u[..|blanks|] == blanks && u[|blanks|] == v[0];
    SpaceRunIs(u);
    RunsStopAt(u, SpaceRun(u), |blanks|, (c: char) => IsSpace(c));
    if blanks != "" {
      assert blanks[0] in blanks;
    }
  }

  /** ... and nothing else is. */
  lemma HeaderHasWord(t: string) returns (dash: string, blanks: string, word: string)
    requires HeaderOf(t).Some?
    ensures var Header(n, delim) := HeaderOf(t).value;
            && (dash == "" || dash == "-") && (forall c :: c in blanks ==> IsSpace(c))
            && t[..n] == "<<" + (dash + (blanks + word)) && Delimits(word, delim, t[n..])
  {
    hide SpaceRun, WordOf, Delimits;
    var Header(n, delim) := HeaderOf(t).value;
    var from := if |t| > 2 && t[2] == '-' then 3 else 2;
    var at := from + SpaceRun(t[from..]);
    SpaceRunIs(t[from..]);
    WordIs(t[at..]);
    dash, blanks, word := t[2..from], t[from..at], t[at..n];
    assert blanks == t[from..][..at - from] && word == t[at..][..n - at] && t[n..] == t[at..][n - at..];
    assert t[..n] == t[..2] + (dash + (blanks + word));
  }

  // ---- Command substitutions ------------------------------------------------

  /** A flat scan with one counter: how much is taken until `depth` open parentheses are
      closed.  Heredocs are jumped over; a `<<` that is no heredoc gives up at the end. */
  function Flat(t: string, depth: nat): (n: nat)
    ensures n <= |t|
    decreases |t|
  {
    if depth == 0 || t == "" then 0
    else if "<<" <= t then
      match HeredocLen(t)
      case None => |t|
      case Some(n) => n + Flat(t[n..], depth)
    else if "$(" <= t then 2 + Flat(t[2..], depth + 1)
    else 1 + Flat(t[1..], if t[0] == '(' then depth + 1 else if t[0] == ')' then depth - 1 else depth)
  }

  /** How much the scan takes in one go, and the depth it goes on with. */
  function Jump(t: string, depth: nat): (nat, nat)
    requires t != "" && depth > 0
  {
    if "<<" <= t then (if HeredocLen(t).None? then (|t|, depth) else (HeredocLen(t).value, depth))
    else if "$(" <= t then (2, depth + 1)
    else (1, if t[0] == '(' then depth + 1 else if t[0] == ')' then depth - 1 else depth)
  }

  lemma {:induction false} FlatJumps(t: string, depth: nat)
    requires t != "" && depth > 0
    ensures var (n, d) := Jump(t, depth); 0 < n <= |t| && Flat(t, depth) == n + Flat(t[n..], d)
  {
    assert t[|t|..] == "";
  }

  /** Closing `inner + outer` parentheses is closing `inner` ones and then `outer` ones. */
  lemma {:induction false} FlatNests(t: string, inner: nat, outer: nat)
    ensures var n := Flat(t, inner); Flat(t, inner + outer) == n + Flat(t[n..], outer)
    decreases |t|
  {
    hide Flat;
    if inner == 0 || t == "" {
      FlatEnds(t, inner);
      assert t[0..] == t;
      if t == "" {
        FlatEnds(t, inner + outer);
        FlatEnds(t, outer);
      }
    } else {
      var (n, d) := Jump(t, inner);
      FlatJumps(t, inner);
      FlatJumps(t, inner + outer);
      FlatNests(t[n..], d, outer);
      var m := Flat(t[n..], d);
      assert t[n..][m..] == t[n + m..];
    }
  }

  /** The jump at position `j` of `input`. */
  lemma JumpFrom(input: string, j: nat, depth: nat)
    requires j < |input| && depth > 0
    ensures var (n, d) := Jump(input[j..], depth);
            0 < n <= |input| - j && Flat(input[j..], depth) == n + Flat(input[j + n..], d)
  {
    hide Flat, Jump;
    FlatJumps(input[j..], depth);
    var (n, d) := Jump(input[j..], depth);
    assert input[j..][n..] == input[j + n..];
  }

  lemma StartsWith(input: string, j: nat, a: char, b: char)
    requires j < |input|
    ensures [a, b] <= input[j..] <==> j + 1 < |input| && input[j] == a && input[j + 1] == b
  {
    var t := input[j..];
    assert t[0] == input[j];
    if |t| > 1 {
      assert t[1] == input[j + 1] && t[..2] == [t[0], t[1]];
    }
  }

  /** A nested substitution at `j`, scanned on its own and then left behind. */
  lemma NestedFrom(input: string, j: nat, depth: nat)
    requires j + 1 < |input| && depth > 0 && "$(" <= input[j..] && !("<<" <= input[j..])
    ensures var k := j + 2 + Flat(input[j + 2..], 1);
            k <= |input| && j + Flat(input[j..], depth) == k + Flat(input[k..], depth)
  {
    hide Flat;
    JumpFrom(input, j, depth);
    var t := input[j + 2..];
    FlatNests(t, 1, depth);
    var n := Flat(t, 1);
    assert t[n..] == input[j + 2 + n..];
  }

  /** `skipDollarParen`: nested substitutions by recursion, bare parentheses by a counter. */
  method SkipDollarParen(input: string, start: nat) returns (j: nat)
    requires start + 1 < |input| && input[start] == '$' && input[start + 1] == '('
    ensures j == start + 2 + Flat(input[start + 2..], 1)
    decreases |input| - start
  {
    hide Flat, HeredocLen;
    var n := |input|;
    var depth := 1;
    j := start + 2;
    while j < n && depth > 0
      invariant start + 2 <= j <= n && depth >= 0
      invariant j + Flat(input[j..], depth) == start + 2 + Flat(input[start + 2..], 1)
      decreases n - j
    {
      JumpFrom(input, j, depth);
      StartsWith(input, j, '<', '<');
      StartsWith(input, j, '$', '(');
      if input[j] == '<' && j + 1 < n && input[j + 1] == '<' {
        var end, ok := SkipHeredoc(input, j);
        if ok {
          j := end;
          continue;
        }
        FlatEnds(input[n..], depth);
        return n;
      }
      if input[j] == '$' && j + 1 < n && input[j + 1] == '(' {
        NestedFrom(input, j, depth);
        j := SkipDollarParen(input, j);
        continue;
      }
      if input[j] == '(' {
        depth := depth + 1;
      } else if input[j] == ')' {
        depth := depth - 1;
      }
      j := j + 1;
    }
    FlatEnds(input[j..], depth);
  }

  lemma FlatEnds(t: string, depth: nat)
    requires t == "" || depth == 0
    ensures Flat(t, depth) == 0
  {
  }

  // ---- ... are balanced parentheses -----------------------------------------

  /** Parentheses still open after `t`, having started with `depth`. */
  function Balance(t: string, depth: int): int {
    if t == "" then depth
    else Balance(t[1..], if t[0] == '(' then depth + 1 else if t[0] == ')' then depth - 1 else depth)
  }

  predicate NoHeredoc(t: string) { forall i :: 0 <= i < |t| - 1 ==> !(t[i] == '<' && t[i + 1] == '<') }

  lemma {:induction false} BalanceFrom(t: string, k: nat, depth: int)
    requires 0 < k <= |t|
    ensures Balance(t[..k], depth) ==
              Balance(t[1..][..k - 1], if t[0] == '(' then depth + 1 else if t[0] == ')' then depth - 1 else depth)
  {
    assert t[..k][1..] == t[1..][..k - 1];
  }

  /** Without `<<`, the scan stops right after the first position where nothing is open any
      more, or at the end of the text if there is none. */
  lemma {:induction false} FlatIsFirstClose(t: string, depth: nat)
    requires NoHeredoc(t) && depth > 0
    ensures var n := Flat(t, depth);
            && (forall k :: 0 <= k < n ==> Balance(t[..k], depth) > 0)
            && (Balance(t[..n], depth) == 0 || (n == |t| && Balance(t[..n], depth) > 0))
    decreases |t|
  {
    var n := Flat(t, depth);
    assert t[..0] == "";
    if t != "" {
      FirstCloseByOne(t, depth);
      var depth' := if t[0] == '(' then depth + 1 else if t[0] == ')' then depth - 1 else depth;
      BalanceFrom(t, n, depth);
      if depth' > 0 {
        FlatIsFirstClose(t[1..], depth');
        forall k | 0 < k < n ensures Balance(t[..k], depth) > 0 { BalanceFrom(t, k, depth); }
      } else {
        assert t[1..][..0] == "";
      }
    }
  }

  /** Without `<<` the scan may as well go character by character. */
  lemma {:induction false} FirstCloseByOne(t: string, depth: nat)
    requires NoHeredoc(t) && depth > 0 && t != ""
    ensures Flat(t, depth) ==
        1 + Flat(t[1..], if t[0] == '(' then depth + 1 else if t[0] == ')' then depth - 1 else depth)
  {
    assert t[0..] == t;
    StartsWith(t, 0, '<', '<');
    StartsWith(t, 0, '$', '(');
    if "$(" <= t {
      assert t[1..][0] == '(' && t[1..][1..] == t[2..];
      assert !("<<" <= t[1..]) && !("$(" <= t[1..]);
    }
  }

  // ---- The skeleton ---------------------------------------------------------

  function IndexOf(t: string, c: char): (r: Option<nat>)
    ensures r.Some? ==> r.value < |t| && t[r.value] == c && c !in t[..r.value]
    ensures r.None? ==> c !in t
  {
    if t == "" then None
    else if t[0] == c then Some(0)
    else
      match IndexOf(t[1..], c)
      case None => None
      case Some(n) =>
        assert t[..n + 1] == [t[0]] + t[1..][..n];
        Some(n + 1)
  }

  /** Characters of a double-quoted body before its closing quote, or before the end. */
  function BodyLen(t: string): (n: nat)
    ensures n <= |t|
    ensures n < |t| ==> t[n] == '"'
    decreases |t|
  {
    if t == "" then 0
    else if t[0] == '\\' && |t| > 1 then 2 + BodyLen(t[2..])
    else if t[0] == '"' then 0
    else if "$(" <= t then
      var n := 2 + Flat(t[2..], 1);
      n + BodyLen(t[n..])
    else 1 + BodyLen(t[1..])
  }

  /** The construct or character at the front of `t`: what it leaves in the skeleton, and how
      much it takes. */
  function Front(t: string): (r: (string, nat))
    requires t != ""
    ensures 0 < r.1 <= |t|
  {
    if t[0] == '\'' then
      match IndexOf(t[1..], '\'')
      case None => ("", |t|)
      case Some(n) => ("", n + 2)
    else if "$'" <= t then
      match IndexOf(t[2..], '\'')
      case None => ("", |t|)
      case Some(n) => ("", n + 3)
    else if t[0] == '"' then
      var n := 1 + BodyLen(t[1..]);
      if n >= |t| then ("", |t|) else ("", n + 1)
    else if "$(" <= t then ("", 2 + Flat(t[2..], 1))
    else if "<<" <= t && HeredocLen(t).Some? then ("", HeredocLen(t).value)
    else ([t[0]], 1)
  }

  /** What the parent shell sees of `t`. */
  function Skeleton(t: string): string
    decreases |t|
  {
    if t == "" then ""
    else
      var (text, n) := Front(t);
      text + Skeleton(t[n..])
  }

  lemma {:induction false} SkeletonSteps(t: string)
    ensures t != "" ==> Skeleton(t) == Front(t).0 + Skeleton(t[Front(t).1..])
    ensures t == "" ==> Skeleton(t) == ""
  {
    hide Front;
  }

  function BodyJump(t: string): (n: nat)
    requires t != ""
    ensures n <= |t|
  {
    if t[0] == '\\' && |t| > 1 then 2
    else if t[0] == '"' then 0
    else if "$(" <= t then 2 + Flat(t[2..], 1)
    else 1
  }

  lemma {:induction false} BodySteps(t: string)
    ensures t == "" ==> BodyLen(t) == 0
    ensures t != "" ==> BodyLen(t) == if BodyJump(t) == 0 then 0 else BodyJump(t) + BodyLen(t[BodyJump(t)..])
  {
  }

  /** The end of a double-quoted body that starts at `from`. */
  method ScanBody(input: string, from: nat) returns (j: nat)
    requires from <= |input|
    ensures j == from + BodyLen(input[from..])
  {
    hide Flat, BodyLen;
    var n := |input|;
    BodySteps("");
    j := from;
    while j < n
      invariant from <= j <= n
      invariant j + BodyLen(input[j..]) == from + BodyLen(input[from..])
      decreases n - j
    {
      var t := input[j..];
      BodySteps(t);
      StartsWith(input, j, '$', '(');
      assert t[BodyJump(t)..] == input[j + BodyJump(t)..];
      if input[j] == '\\' && j + 1 < n {
        j := j + 2;
        continue;
      }
      if input[j] == '"' {
        break;
      }
      if input[j] == '$' && j + 1 < n && input[j + 1] == '(' {
        assert input[j + 2..] == t[2..];
        j := SkipDollarParen(input, j);
        continue;
      }
      if input[j] == '<' && j + 1 < n && input[j + 1] == '<' {
        // the end of the heredoc is computed and then not used
        var _, _ := SkipHeredoc(input, j);
      }
      j := j + 1;
    }
  }

  /** The construct at position `i` of `input`, with what has been kept so far. */
  lemma FrontFrom(input: string, i: nat, out: string)
    requires i < |input|
    ensures var (text, n) := Front(input[i..]);
            n <= |input| - i && out + Skeleton(input[i..]) == out + text + Skeleton(input[i + n..])
  {
    hide Front, Skeleton;
    SkeletonSteps(input[i..]);
    var (text, n) := Front(input[i..]);
    assert input[i..][n..] == input[i + n..];
  }

  lemma SkeletonEnds(input: string, out: string)
    ensures out + Skeleton(input[|input|..]) == out && input[0..] == input
  {
    hide Skeleton;
    SkeletonSteps("");
    assert input[|input|..] == "" && out + "" == out;
  }

  /** `StripQuoted`. */
  method StripQuoted(input: string) returns (out: string)
    ensures out == Skeleton(input)
  {
    hide Flat, BodyLen, Skeleton, HeaderOf;
    out := "";
    SkeletonEnds(input, out);
    if input == "" {
      return "";
    }
    var i := 0;
    var n := |input|;
    while i < n
      invariant 0 <= i <= n
      invariant out + Skeleton(input[i..]) == Skeleton(input)
      decreases n - i
    {
      var c := input[i];
      FrontFrom(input, i, out);
      StartsWith(input, i, '$', '\'');
      StartsWith(input, i, '$', '(');
      StartsWith(input, i, '<', '<');
      SkeletonEnds(input, out);
      assert input[i..][1..] == input[i + 1..];
      if c == '\'' {
        var end := IndexOf(input[i + 1..], '\'');
        if end.None? {
          return out;
        }
        i := i + 1 + end.value + 1;
        continue;
      }
      if c == '$' && i + 1 < n && input[i + 1] == '\'' {
        assert input[i..][2..] == input[i + 2..];
        var end := IndexOf(input[i + 2..], '\'');
        if end.None? {
          return out;
        }
        i := i + 2 + end.value + 1;
        continue;
      }
      if c == '"' {
        var j := ScanBody(input, i + 1);
        if j >= n {
          return out;
        }
        i := j + 1;
        continue;
      }
      if c == '$' && i + 1 < n && input[i + 1] == '(' {
        assert input[i..][2..] == input[i + 2..];
        i := SkipDollarParen(input, i);
        continue;
      }
      if c == '<' && i + 1 < n && input[i + 1] == '<' {
        var end, ok := SkipHeredoc(input, i);
        if ok {
          i := end;
          continue;
        }
        // `skipHeredoc` refuses only what has no header, so the source's fallback for a
        // parsed header with an open body is never taken
        assert HeaderOf(input[i..]).None?;
      }
      out := out + [c];
      i := i + 1;
    }
    SkeletonEnds(input, out);
  }

  // ---- What the skeleton is -------------------------------------------------

  predicate IsSubsequence(a: string, b: string)
    decreases |b|
  {
    a == "" || (b != "" && (IsSubsequence(a, b[1..]) || (a[0] == b[0] && IsSubsequence(a[1..], b[1..]))))
  }

  lemma {:induction false} SubsequenceOfSuffix(a: string, b: string, n: nat)
    requires n <= |b| && IsSubsequence(a, b[n..])
    ensures IsSubsequence(a, b)
    decreases n
  {
    if n > 0 {
      assert b[1..][n - 1..] == b[n..];
      SubsequenceOfSuffix(a, b[1..], n - 1);
    } else {
      assert b[0..] == b;
    }
  }

  lemma FrontIsClean(t: string)
    requires t != ""
    ensures var (text, n) := Front(t);
            text == "" || (text == [t[0]] && n == 1 && t[0] != '\'' && t[0] != '"')
  {
    hide Flat, BodyLen;
  }

  /** The skeleton drops text and adds none, and no quote survives in it. */
  lemma {:induction false} SkeletonIsClean(t: string)
    ensures IsSubsequence(Skeleton(t), t)
    ensures '\'' !in Skeleton(t) && '"' !in Skeleton(t)
    decreases |t|
  {
    hide Front, Skeleton, Flat, BodyLen;
    SkeletonSteps(t);
    if t != "" {
      var (text, n) := Front(t);
      FrontIsClean(t);
      SkeletonIsClean(t[n..]);
      var rest := Skeleton(t[n..]);
      if text == "" {
        assert text + rest == rest;
        SubsequenceOfSuffix(rest, t, n);
      } else {
        assert (text + rest)[1..] == rest;
      }
    }
  }

  predicate IsPlain(a: string) { forall c :: c in a ==> c !in "'\"$<" }

  lemma FrontOfPlain(t: string)
    requires t != "" && IsPlain(t[..1])
    ensures Front(t) == ([t[0]], 1)
  {
    hide Flat, BodyLen;
    assert t[0] in t[..1];
  }

  /** Ordinary characters are kept as they are. */
  lemma {:induction false} PlainTextStays(a: string, t: string)
    requires IsPlain(a)
    ensures Skeleton(a + t) == a + Skeleton(t)
    decreases |a|
  {
    hide Skeleton, Flat, BodyLen, Front;
    if a == "" {
      assert a + t == t && a + Skeleton(t) == Skeleton(t);
    } else {
      PlainTextStays(a[1..], t);
      SkeletonSteps(a + t);
      FrontOfPlain(a + t);
      assert (a + t)[1..] == a[1..] + t;
      assert a + Skeleton(t) == [a[0]] + (a[1..] + Skeleton(t));
    }
  }

  lemma {:induction false} FirstIndex(b: string, c: char, rest: string)
    requires c !in b
    ensures IndexOf(b + [c] + rest, c) == Some(|b|)
  {
    var t := b + [c] + rest;
    if b != "" {
      FirstIndex(b[1..], c, rest);
      assert t[1..] == b[1..] + [c] + rest;
    }
  }

  /** A single-quoted span disappears, whatever it contains. */
  lemma {:induction false} SingleQuotesVanish(a: string, b: string, c: string)
    requires IsPlain(a) && '\'' !in b
    ensures Skeleton(a + "'" + b + "'" + c) == a + Skeleton(c)
  {
    hide Skeleton, Flat, BodyLen;
    var t := "'" + b + "'" + c;
    assert a + "'" + b + "'" + c == a + t;
    PlainTextStays(a, t);
    SkeletonSteps(t);
    FirstIndex(b, '\'', c);
    assert t[1..] == b + ['\''] + c;
    assert t[|b| + 2..] == c;
  }

  /** An odd number of backslashes stands right before position `i`. */
  predicate Escaped(t: string, i: nat)
    requires i <= |t|
  {
    i > 0 && t[i - 1] == '\\' && !Escaped(t, i - 1)
  }

  /** Every double quote of `h` is escaped, and a quote right after `h` would not be. */
  predicate QuotesEscaped(h: string) {
    !Escaped(h, |h|) && forall i :: 0 <= i < |h| && h[i] == '"' ==> Escaped(h, i)
  }

  predicate NoSubstitution(h: string) { forall i :: 0 <= i < |h| - 1 ==> !(h[i] == '$' && h[i + 1] == '(') }

  lemma {:induction false} BodyFrom(t: string, at: nat, end: nat)
    requires at <= end < |t| && t[end] == '"' && !Escaped(t, at)
    requires forall i :: at <= i < end ==> !(t[i] == '$' && t[i + 1] == '(')
    ensures at + BodyLen(t[at..]) == end <==>
              !Escaped(t, end) && forall i :: at <= i < end && t[i] == '"' ==> Escaped(t, i)
    decreases end - at
  {
    hide BodyLen, Flat;
    var u := t[at..];
    BodySteps(u);
    if at < end && u[0] != '"' {
      var n := BodyJump(u);
      assert u[1] == t[at + 1] && (u[0] == '\\' <==> Escaped(t, at + 1));
      assert !("$(" <= u);
      if at + n <= end {
        assert t[at + n..] == u[n..];
        BodyFrom(t, at + n, end);
      }
    }
  }

  lemma {:induction false} EscapedInPrefix(h: string, rest: string, i: nat)
    requires i <= |h|
    ensures Escaped(h + rest, i) == Escaped(h, i)
  {
    if i > 0 {
      EscapedInPrefix(h, rest, i - 1);
    }
  }

  /** A quoted body without substitutions is read to its end exactly when all its quotes are
      escaped; a heredoc in it makes no difference. */
  lemma BodyEndsIff(h: string, c: string)
    requires NoSubstitution(h)
    ensures BodyLen(h + "\"" + c) == |h| <==> QuotesEscaped(h)
  {
    hide BodyLen, Escaped;
    var rest := "\"" + c;
    var t := h + rest;
    assert t == h + "\"" + c && t[0..] == t;
    NotEscaped(t, 0);
    forall i: nat | i <= |h| ensures Escaped(t, i) == Escaped(h, i) { EscapedInPrefix(h, rest, i); }
    assert forall i :: 0 <= i < |h| ==> t[i] == h[i];
    BodyFrom(t, 0, |h|);
  }

  /** A double-quoted span without substitutions and with its inner quotes escaped disappears,
      heredoc operators in it included. */
  lemma {:induction false} DoubleQuotesVanish(a: string, b: string, c: string)
    requires IsPlain(a) && NoSubstitution(b) && QuotesEscaped(b)
    ensures Skeleton(a + "\"" + b + "\"" + c) == a + Skeleton(c)
  {
    hide Skeleton, Flat, BodyLen, QuotesEscaped;
    var t := "\"" + b + "\"" + c;
    assert a + "\"" + b + "\"" + c == a + t;
    PlainTextStays(a, t);
    SkeletonSteps(t);
    assert t[1..] == b + "\"" + c;
    BodyEndsIff(b, c);
    assert t[|b| + 2..] == c;
  }

  /** The end of a double-quoted body as the source's comments have it: heredocs are jumped over. */
  function PromisedBodyLen(t: string): nat
    decreases |t|
  {
    if t == "" then 0
    else if t[0] == '\\' && |t| > 1 then 2 + PromisedBodyLen(t[2..])
    else if t[0] == '"' then 0
    else if "$(" <= t then
      var n := 2 + Flat(t[2..], 1);
      n + PromisedBodyLen(t[n..])
    else if "<<" <= t && HeredocLen(t).Some? then
      var n := HeredocLen(t).value;
      n + PromisedBodyLen(t[n..])
    else 1 + PromisedBodyLen(t[1..])
  }

  /** A heredoc between double quotes: the promise is that the body ends right after it.  The
      code keeps it exactly when the quotes of the heredoc are escaped. */
  lemma {:induction false} QuotedHeredocIff(h: string, c: string)
    requires HeredocLen(h + "\"" + c) == Some(|h|) && NoSubstitution(h)
    ensures PromisedBodyLen(h + "\"" + c) == |h|
    ensures BodyLen(h + "\"" + c) == PromisedBodyLen(h + "\"" + c) <==> QuotesEscaped(h)
  {
    BodyEndsIff(h, c);
    var t := h + "\"" + c;
    assert t[0..] == t && HeaderOf(t).Some?;
    StartsWith(t, 0, '<', '<');
    hide BodyLen, Flat, HeredocLen, QuotesEscaped;
    assert t[|h|] == '"';
  }

  lemma {:induction false} LineRunOf(line: string, rest: string)
    requires '\n' !in line && rest != "" && rest[0] == '\n'
    ensures LineRun(line + rest) == |line|
  {
    if line != "" {
      assert line[0] in line && (line + rest)[1..] == line[1..] + rest;
      LineRunOf(line[1..], rest);
    } else {
      assert line + rest == rest;
    }
  }

  lemma {:induction false} TerminatorWithinLine(line: string, rest: string, delim: string)
    requires '\n' !in line && TerminatorEnd(rest, delim).Some?
    ensures TerminatorEnd(line + rest, delim) == Some(|line| + TerminatorEnd(rest, delim).value)
  {
    hide ClosesHeredoc, LineRun;
    if line != "" {
      assert line[0] in line && (line + rest)[1..] == line[1..] + rest;
      TerminatorWithinLine(line[1..], rest, delim);
    } else {
      assert line + rest == rest;
    }
  }

  /** A line that does not close the heredoc is passed over. */
  lemma {:induction false} TerminatorAfterLine(line: string, rest: string, delim: string)
    requires '\n' !in line && rest != "" && rest[0] == '\n'
    requires !ClosesHeredoc(line, delim) && TerminatorEnd(rest, delim).Some?
    ensures TerminatorEnd("\n" + line + rest, delim) == Some(1 + |line| + TerminatorEnd(rest, delim).value)
  {
    hide ClosesHeredoc, LineRun;
    var t := "\n" + line + rest;
    assert t[1..] == line + rest;
    LineRunOf(line, rest);
    TerminatorWithinLine(line, rest, delim);
    assert t[1..1 + |line|] == line;
  }

  lemma {:induction false} ClosingLine(delim: string, rest: string)
    requires '\n' !in delim
    ensures TerminatorEnd("\n" + delim + "\n" + rest, delim) == Some(|delim| + 2)
  {
    LineCloses("", delim, "\n" + rest);
    assert "\n" + delim + "\n" + rest == "\n" + ("" + delim + ("\n" + rest));
  }

  /** A line closes the heredoc if it is tabs and blanks and then the delimiter, with nothing behind it. */
  lemma ClosesIff(line: string, delim: string)
    ensures ClosesHeredoc(line, delim) <==>
              exists indent :: line == indent + delim && forall c :: c in indent ==> c == '\t' || c == ' '
  {
    if ClosesHeredoc(line, delim) {
      assert line == line[..|line| - |delim|] + delim;
    }
    if indent :| line == indent + delim && forall c :: c in indent ==> c == '\t' || c == ' ' {
      assert line[|line| - |delim|..] == delim;
      forall i | 0 <= i < |line| - |delim| ensures line[i] == '\t' || line[i] == ' ' { assert indent[i] in indent; }
    }
  }

  /** The heredoc then ends behind its newline, or at the end of the input. */
  lemma {:induction false} LineCloses(indent: string, delim: string, rest: string)
    requires '\n' !in delim && forall c :: c in indent ==> c == '\t' || c == ' '
    requires rest == "" || rest[0] == '\n'
    ensures TerminatorEnd("\n" + (indent + delim + rest), delim) ==
              Some(1 + |indent| + |delim| + if rest == "" then 0 else 1)
  {
    hide LineRun, ClosesHeredoc;
    var line := indent + delim;
    var t := "\n" + (line + rest);
    ClosesIff(line, delim);
    assert t[1..] == line + rest && t[1..1 + |line|] == line;
    if rest == "" {
      assert line + rest == line;
      LineRunAtEnd(line);
    } else {
      LineRunOf(line, rest);
    }
  }

  lemma {:induction false} LineRunAtEnd(line: string)
    requires '\n' !in line
    ensures LineRun(line) == |line|
  {
    if line != "" {
      LineRunAtEnd(line[1..]);
    }
  }

  lemma BareHeader(rest: string)
    requires rest != "" && !IsNameChar(rest[0])
    ensures HeaderOf("<<E" + rest) == Some(Header(3, "E"))
  {
    hide SpaceRun, NameRun, QuotedRun, HeaderOf;
    WordHeader("", "", "E", "E", rest);
    assert "<<E" + rest == "<<" + ("" + ("" + ("E" + rest)));
  }

  /** A heredoc that holds a quoted word. */
  function QuotingHeredoc(word: string): string { "<<E\n\"" + word + "\"\nE\n" }

  lemma {:induction false} QuotingHeredocIsOne(word: string)
    requires '\n' !in word
    ensures HeredocLen(QuotingHeredoc(word) + "\"") == Some(|QuotingHeredoc(word)|)
  {
    hide TerminatorEnd, HeaderOf;
    var h, line, rest := QuotingHeredoc(word), "\"" + word + "\"", "\nE\n\"";
    var body := "\n" + line + rest;
    assert h + "\"" == "<<E" + body;
    assert (h + "\"")[3..] == body;
    BareHeader(body);
    assert !ClosesHeredoc(line, "E") by { assert line[|line| - 1..] == "\""; }
    assert rest == "\n" + "E" + "\n" + "\"";
    ClosingLine("E", "\"");
    hide ClosesHeredoc;
    TerminatorAfterLine(line, rest, "E");
  }

  /** Between double quotes it breaks the promise: the quoted word leaks into the skeleton, of
      which the promise would leave nothing. */
  lemma QuotedHeredocLeaks(word: string)
    requires IsPlain(word) && '\n' !in word
    ensures Skeleton("\"" + QuotingHeredoc(word) + "\"") == word
    ensures PromisedBodyLen(QuotingHeredoc(word) + "\"") == |QuotingHeredoc(word)|
  {
    hide Skeleton, HeredocLen, Escaped, PromisedBodyLen;
    var h := QuotingHeredoc(word);
    forall i | 0 <= i < |h| ensures h[i] != '$' {
      if 5 <= i < |word| + 5 { assert h[i] == word[i - 5] && word[i - 5] in word; }
    }
    var rest := word + "\"\nE\n\"";
    assert "\"" + QuotingHeredoc(word) + "\"" == "" + "\"" + "<<E\n" + "\"" + rest;
    assert !Escaped("<<E\n", 4) && !Escaped("\nE\n", 3) by { NotEscaped("<<E\n", 4); NotEscaped("\nE\n", 3); }
    DoubleQuotesVanish("", "<<E\n", rest);
    assert rest == word + "\"" + "\nE\n" + "\"" + "";
    DoubleQuotesVanish(word, "\nE\n", "");
    SkeletonSteps("");
    assert word + "" == word;
    QuotingHeredocIsOne(word);
    assert QuotingHeredoc(word) + "\"" + "" == QuotingHeredoc(word) + "\"";
    QuotedHeredocIff(QuotingHeredoc(word), "");
  }

  lemma NotEscaped(t: string, i: nat)
    requires i <= |t| && (i > 0 ==> t[i - 1] != '\\')
    ensures !Escaped(t, i)
  {
  }

  /** Something is open before, after and everywhere within the text. */
  predicate OpenThroughout(b: string, depth: int) { forall k :: 0 <= k <= |b| ==> Balance(b[..k], depth) > 0 }

  /** Nothing closes below depth one, and the text ends as open as it began. */
  predicate IsBalanced(b: string) { Balance(b, 1) == 1 && OpenThroughout(b, 1) }

  /** No `<<` arises where `b` meets what follows it. */
  predicate NoJunction(b: string, rest: string) {
    !(b != "" && b[|b| - 1] == '<' && rest != "" && rest[0] == '<')
  }

  /** Text without `<<` that leaves something open everywhere is taken character by character. */
  lemma {:induction false} FlatThrough(b: string, rest: string, depth: nat)
    requires NoHeredoc(b) && NoJunction(b, rest)
    requires OpenThroughout(b, depth)
    ensures Balance(b, depth) > 0 && Flat(b + rest, depth) == |b| + Flat(rest, Balance(b, depth))
    decreases |b|
  {
    assert b[..|b|] == b && b[..0] == "";
    if b == "" {
      assert b + rest == rest;
    } else {
      var depth' := if b[0] == '(' then depth + 1 else if b[0] == ')' then depth - 1 else depth;
      BalanceFrom(b, 1, depth);
      assert b[1..][..0] == "";
      forall k | 0 <= k <= |b[1..]| ensures Balance(b[1..][..k], depth') > 0 { BalanceFrom(b, k + 1, depth); }
      assert (b + rest)[1..] == b[1..] + rest;
      FlatThrough(b[1..], rest, depth');
      hide Flat, Balance;
      StepThrough(b, rest, depth);
    }
  }

  lemma {:induction false} StepThrough(b: string, rest: string, depth: nat)
    requires NoHeredoc(b) && NoJunction(b, rest) && depth > 0 && b != ""
    ensures var t := b + rest;
            Flat(t, depth) ==
              1 + Flat(t[1..], if b[0] == '(' then depth + 1 else if b[0] == ')' then depth - 1 else depth)
  {
    var t := b + rest;
    assert t[0] == b[0] && (|b| > 1 ==> t[1] == b[1]) && (|b| == 1 && rest != "" ==> t[1] == rest[0]);
    assert t[0..] == t;
    StartsWith(t, 0, '<', '<');
    StartsWith(t, 0, '$', '(');
    if "$(" <= t {
      var u := t[1..];
      assert u[0] == '(' && u[1..] == t[2..] && u[0..] == u;
      StartsWith(u, 0, '<', '<');
      StartsWith(u, 0, '$', '(');
    }
  }

  /** A heredoc is passed over, whatever parentheses and quotes it contains. */
  lemma FlatOverHeredoc(h: string, rest: string, depth: nat)
    requires HeredocLen(h + rest) == Some(|h|) && depth > 0
    ensures h != "" && h[0] == '<' && Flat(h + rest, depth) == |h| + Flat(rest, depth)
  {
    var t := h + rest;
    assert t[0..] == t && HeaderOf(t).Some?;
    StartsWith(t, 0, '<', '<');
    FlatJumps(t, depth);
    assert t[|h|..] == rest;
    hide Flat, HeredocLen;
  }

  /** The two together: text with something open everywhere, then a heredoc. */
  lemma FlatThroughHeredoc(b: string, h: string, rest: string, depth: nat)
    requires NoHeredoc(b) && (b != "" ==> b[|b| - 1] != '<')
    requires OpenThroughout(b, depth)
    requires HeredocLen(h + rest) == Some(|h|)
    ensures Balance(b, depth) > 0
    ensures Flat(b + h + rest, depth) == |b| + |h| + Flat(rest, Balance(b, depth))
  {
    hide HeredocLen, Flat, Balance, OpenThroughout;
    assert b + h + rest == b + (h + rest);
    FlatThrough(b, h + rest, depth);
    FlatOverHeredoc(h, rest, Balance(b, depth));
  }

  /** Nothing is closed too early around a heredoc, and at the end only the substitution is open. */
  predicate BalancedAround(b: string, d: string) {
    && NoHeredoc(b) && NoHeredoc(d) && (b != "" ==> b[|b| - 1] != '<')
    && OpenThroughout(b, 1) && OpenThroughout(d, Balance(b, 1)) && Balance(d, Balance(b, 1)) == 1
  }

  lemma Regroup(x: string, y: string, z: string)
    ensures x + y + z == x + (y + z)
  {
  }

  /** Text with the closing parenthesis of a substitution in it. */
  function UpToClose(d: string, c: string): string { d + ")" + c }

  /** Up to the parenthesis that closes the substitution. */
  lemma FlatToClose(d: string, c: string, depth: nat)
    requires NoHeredoc(d) && OpenThroughout(d, depth) && Balance(d, depth) == 1
    ensures Flat(UpToClose(d, c), depth) == |d| + 1
  {
    hide Flat, Balance, NoHeredoc, OpenThroughout;
    Regroup(d, ")", c);
    FlatThrough(d, ")" + c, depth);
    FlatClose(c);
  }

  /** A closing parenthesis inside a heredoc cannot close the substitution around it. */
  lemma HeredocCannotClose(b: string, h: string, d: string, c: string)
    requires BalancedAround(b, d) && HeredocLen(h + UpToClose(d, c)) == Some(|h|)
    ensures Flat(b + h + UpToClose(d, c), 1) == |b| + |h| + |d| + 1
  {
    Around(b, d);
    hide *;
    FlatThroughHeredoc(b, h, UpToClose(d, c), 1);
    FlatToClose(d, c, Balance(b, 1));
  }

  lemma Around(b: string, d: string)
    requires BalancedAround(b, d)
    ensures NoHeredoc(b) && NoHeredoc(d) && (b != "" ==> b[|b| - 1] != '<') && Balance(b, 1) > 0
    ensures OpenThroughout(b, 1) && OpenThroughout(d, Balance(b, 1)) && Balance(d, Balance(b, 1)) == 1
  {
    assert b[..|b|] == b;
  }

  function Substitution(inner: string): (s: string)
    ensures |s| == |inner| + 3 && s[0] == '$'
  {
    "$(" + inner + ")"
  }

  function Quoted(body: string): string { "\"" + body + "\"" }

  /** The scan of `inner` stops right behind the parenthesis that follows it. */
  predicate ClosesBefore(inner: string, rest: string) { Flat(inner + (")" + rest), 1) == |inner| + 1 }

  lemma SubstitutionStarts(inner: string, rest: string)
    ensures var t := Substitution(inner) + rest;
            "$(" <= t && t[0] == '$' && t[2..] == inner + (")" + rest) && t[|inner| + 3..] == rest
  {
    var t := Substitution(inner) + rest;
    assert t[1] == '(' && t[0..] == t;
    StartsWith(t, 0, '$', '(');
  }

  /** A construct in front that leaves nothing disappears. */
  lemma FrontVanishes(a: string, t: string, n: nat)
    requires IsPlain(a) && t != "" && Front(t) == ("", n)
    ensures n <= |t| && Skeleton(a + t) == a + Skeleton(t[n..])
  {
    hide Skeleton, Front, IsPlain;
    PlainTextStays(a, t);
    SkeletonSteps(t);
    assert "" + Skeleton(t[n..]) == Skeleton(t[n..]);
  }

  lemma FrontOfSubstitution(t: string)
    requires "$(" <= t
    ensures Front(t) == ("", 2 + Flat(t[2..], 1))
  {
    hide Flat, BodyLen;
    assert t[0..] == t;
    StartsWith(t, 0, '$', '(');
    StartsWith(t, 0, '$', '\'');
  }

  lemma FrontOfQuotes(t: string)
    requires t != "" && t[0] == '"' && 1 + BodyLen(t[1..]) < |t|
    ensures Front(t) == ("", 2 + BodyLen(t[1..]))
  {
    hide Flat, BodyLen;
    assert t[0..] == t;
    StartsWith(t, 0, '$', '\'');
  }

  /** A command substitution disappears if the scan closes it at its end ... */
  lemma {:induction false} ClosedSubstitutionVanishes(a: string, inner: string, c: string)
    requires IsPlain(a) && ClosesBefore(inner, c)
    ensures Skeleton(a + (Substitution(inner) + c)) == a + Skeleton(c)
  {
    hide Skeleton, Flat, Front, Substitution;
    var t := Substitution(inner) + c;
    SubstitutionStarts(inner, c);
    FrontOfSubstitution(t);
    FrontVanishes(a, t, |inner| + 3);
  }

  lemma SubstitutionInBody(inner: string, rest: string)
    requires ClosesBefore(inner, rest)
    ensures BodyLen(Substitution(inner) + rest) == |inner| + 3 + BodyLen(rest)
  {
    hide BodyLen, Flat, Substitution;
    SubstitutionStarts(inner, rest);
    BodySteps(Substitution(inner) + rest);
  }

  /** From one position of a double-quoted body to another that the scan reaches. */
  lemma {:induction false} BodyReaches(t: string, at: nat, end: nat)
    requires at <= end <= |t| && !Escaped(t, at) && !Escaped(t, end)
    requires forall i :: at <= i < end ==> !(t[i] == '$' && i + 1 < |t| && t[i + 1] == '(')
    requires forall i :: at <= i < end && t[i] == '"' ==> Escaped(t, i)
    ensures at + BodyLen(t[at..]) == end + BodyLen(t[end..])
    decreases end - at
  {
    hide BodyLen, Flat;
    if at < end {
      var u := t[at..];
      BodySteps(u);
      StartsWith(t, at, '$', '(');
      var n := BodyJump(u);
      assert u[0] == t[at] && (t[at] == '\\' <==> Escaped(t, at + 1));
      assert at + n <= end && t[at + n..] == u[n..];
      assert !Escaped(t, at + n);
      BodyReaches(t, at + n, end);
    }
  }

  /** Quoted text without substitutions, with its quotes escaped, is passed over. */
  lemma BodyThrough(u: string, rest: string)
    requires NoSubstitution(u) && QuotesEscaped(u) && (rest != "" ==> rest[0] != '(')
    ensures BodyLen(u + rest) == |u| + BodyLen(rest)
  {
    hide BodyLen, Escaped;
    var t := u + rest;
    NotEscaped(t, 0);
    forall i: nat | i <= |u| ensures Escaped(t, i) == Escaped(u, i) { EscapedInPrefix(u, rest, i); }
    assert forall i :: 0 <= i < |u| ==> t[i] == u[i];
    assert forall i :: 0 <= i < |rest| ==> t[|u| + i] == rest[i];
    BodyReaches(t, 0, |u|);
    assert t[0..] == t && t[|u|..] == rest;
  }

  lemma QuotedSubstitutionBody(u: string, inner: string, v: string, rest: string)
    requires NoSubstitution(u) && QuotesEscaped(u) && NoSubstitution(v) && QuotesEscaped(v)
    requires rest != "" && rest[0] == '"' && ClosesBefore(inner, v + rest)
    ensures BodyLen(u + (Substitution(inner) + (v + rest))) == |u| + |Substitution(inner)| + |v|
  {
    hide *;
    SubstitutionInBody(inner, v + rest);
    BodyThrough(u, Substitution(inner) + (v + rest));
    BodyThrough(v, rest);
    QuoteEndsBody(rest);
  }

  lemma QuoteEndsBody(rest: string)
    requires rest != "" && rest[0] == '"'
    ensures BodyLen(rest) == 0
  {
  }

  lemma QuotedStarts(body: string, c: string)
    ensures var t := Quoted(body) + c;
            |t| == |body| + 2 + |c| && t[0] == '"' && t[1..] == body + ("\"" + c) && t[|body| + 2..] == c
  {
  }

  /** A double-quoted text disappears if the scan of its body ends at its end. */
  lemma ClosedQuotesVanish(a: string, body: string, c: string)
    requires IsPlain(a) && BodyLen(body + ("\"" + c)) == |body|
    ensures Skeleton(a + (Quoted(body) + c)) == a + Skeleton(c)
  {
    hide *;
    var t := Quoted(body) + c;
    QuotedStarts(body, c);
    FrontOfQuotes(t);
    FrontVanishes(a, t, |body| + 2);
  }

  /** ... and so does a double-quoted text around it, whatever quotes the substitution contains. */
  lemma QuotedSubstitutionVanishes(a: string, u: string, inner: string, v: string, c: string)
    requires IsPlain(a) && NoSubstitution(u) && QuotesEscaped(u) && NoSubstitution(v) && QuotesEscaped(v)
    requires ClosesBefore(inner, v + ("\"" + c))
    ensures Skeleton(a + (Quoted(u + Substitution(inner) + v) + c)) == a + Skeleton(c)
  {
    var rest := "\"" + c;
    assert rest[0] == '"';
    hide *;
    QuotedSubstitutionBody(u, inner, v, rest);
    Regroup(u, Substitution(inner), v);
    Regroup(u, Substitution(inner) + v, rest);
    Regroup(Substitution(inner), v, rest);
    ClosedQuotesVanish(a, u + Substitution(inner) + v, c);
  }

  /** The inputs the scanner was written for: a heredoc inside a substitution disappears with
      all its content ... */
  lemma HeredocSubstitutionVanishes(a: string, b: string, h: string, d: string, c: string)
    requires IsPlain(a) && BalancedAround(b, d) && HeredocLen(h + UpToClose(d, c)) == Some(|h|)
    ensures Skeleton(a + (Substitution(b + h + d) + c)) == a + Skeleton(c)
  {
    HeredocCloses(b, h, d, c);
    hide *;
    ClosedSubstitutionVanishes(a, b + h + d, c);
  }

  lemma HeredocCloses(b: string, h: string, d: string, c: string)
    requires BalancedAround(b, d) && HeredocLen(h + UpToClose(d, c)) == Some(|h|)
    ensures ClosesBefore(b + h + d, c)
  {
    hide Flat, HeredocLen, BalancedAround;
    HeredocCannotClose(b, h, d, c);
    Regroup(d, ")", c);
    Regroup(b + h, d, ")" + c);
  }

  /** ... and so does the double-quoted text around it. */
  lemma QuotedHeredocSubstitutionVanishes(a: string, u: string, b: string, h: string, d: string, v: string, c: string)
    requires IsPlain(a) && NoSubstitution(u) && QuotesEscaped(u) && NoSubstitution(v) && QuotesEscaped(v)
    requires BalancedAround(b, d) && HeredocLen(h + UpToClose(d, v + ("\"" + c))) == Some(|h|)
    ensures Skeleton(a + (Quoted(u + Substitution(b + h + d) + v) + c)) == a + Skeleton(c)
  {
    var rest := v + ("\"" + c);
    hide *;
    HeredocCloses(b, h, d, rest);
    QuotedSubstitutionVanishes(a, u, b + h + d, v, c);
  }

  // ---- A commit message in a heredoc ----------------------------------------

  /** Lines that do not close the heredoc are passed over. */
  lemma {:induction false} TerminatorAfterText(text: string, rest: string, delim: string)
    requires rest != "" && rest[0] == '\n' && TerminatorEnd(rest, delim).Some?
    requires forall line :: line in Split(text, '\n') ==> !ClosesHeredoc(line, delim)
    ensures TerminatorEnd("\n" + text + rest, delim) == Some(1 + |text| + TerminatorEnd(rest, delim).value)
    decreases |text|
  {
    hide ClosesHeredoc, TerminatorEnd, Split;
    var i := IndexOf(text, '\n');
    if i.None? {
      SplitAfter(text, "", '\n');
      TerminatorAfterLine(text, rest, delim);
    } else {
      var line, others := text[..i.value], text[i.value + 1..];
      assert text == line + ['\n'] + others;
      SplitAfter(line, others, '\n');
      assert forall l :: l in Split(others, '\n') ==> l in Split(text, '\n');
      TerminatorAfterText(others, rest, delim);
      assert line in Split(text, '\n');
      var below := "\n" + others + rest;
      TerminatorAfterLine(line, below, delim);
      assert "\n" + text + rest == "\n" + line + below;
    }
  }

  lemma QuotedHeader(delim: string, rest: string)
    requires delim != "" && '\'' !in delim && '\n' !in delim
    ensures HeaderOf("<<'" + (delim + ("'" + rest))) == Some(Header(|delim| + 4, delim))
  {
    hide SpaceRun, NameRun, QuotedRun, HeaderOf;
    WordHeader("", "", "'" + delim + "'", delim, rest);
    assert "<<'" + (delim + ("'" + rest)) == "<<" + ("" + ("" + ("'" + delim + "'" + rest)));
  }

  /** A heredoc with a quoted delimiter around some lines. */
  function MessageHeredoc(delim: string, message: string): (h: string)
    ensures |h| == |message| + 2 * |delim| + 7
  {
    "<<'" + (delim + ("'" + ("\n" + message + ("\n" + delim + "\n"))))
  }

  lemma MessageHeredocIsOne(delim: string, message: string, rest: string)
    requires delim != "" && '\'' !in delim && '\n' !in delim
    requires forall line :: line in Split(message, '\n') ==> !ClosesHeredoc(line, delim)
    ensures HeredocLen(MessageHeredoc(delim, message) + rest) == Some(|MessageHeredoc(delim, message)|)
  {
    hide TerminatorEnd, HeaderOf, ClosesHeredoc, Split;
    var end := "\n" + delim + "\n" + rest;
    var body := "\n" + message + end;
    var t := MessageHeredoc(delim, message) + rest;
    ClosingLine(delim, rest);
    TerminatorAfterText(message, end, delim);
    QuotedHeader(delim, body);
    assert t == "<<'" + (delim + ("'" + body));
    assert t[|delim| + 4..] == body;
  }

  lemma {:induction false} NoParentheses(b: string, k: nat)
    requires k <= |b| && '(' !in b && ')' !in b
    ensures Balance(b[..k], 1) == 1
    decreases |b|
  {
    if k > 0 {
      assert b[0] in b && forall x :: x in b[1..] ==> x in b;
      BalanceFrom(b, k, 1);
      NoParentheses(b[1..], k - 1);
    }
  }

  /** A commit message handed over as a heredoc, in a substitution, in double quotes leaves the
      bare command, whatever the message says: quotes, parentheses and commands included. */
  lemma CommitMessageVanishes(delim: string, message: string, rest: string)
    requires delim != "" && '\'' !in delim && '\n' !in delim
    requires forall line :: line in Split(message, '\n') ==> !ClosesHeredoc(line, delim)
    ensures Skeleton("git commit -m " + (Quoted(Substitution("cat " + MessageHeredoc(delim, message))) + rest)) ==
              "git commit -m " + Skeleton(rest)
  {
    CatIsBalanced();
    PlainTextIsQuotable("");
    assert IsPlain("git commit -m ");
    var tail := UpToClose("", "" + ("\"" + rest));
    hide *;
    Padded("cat " + MessageHeredoc(delim, message));
    Padded(Substitution("cat " + MessageHeredoc(delim, message)));
    MessageHeredocIsOne(delim, message, tail);
    QuotedHeredocSubstitutionVanishes("git commit -m ", "", "cat ", MessageHeredoc(delim, message), "", "", rest);
  }

  lemma Padded(x: string)
    ensures x + "" == x && "" + x + "" == x
  {
  }

  lemma CatIsBalanced()
    ensures BalancedAround("cat ", "")
  {
    var b := "cat ";
    forall k | 0 <= k <= |b| ensures Balance(b[..k], 1) > 0 { NoParentheses(b, k); }
    NoParentheses(b, |b|);
    assert b[..|b|] == b && ""[..0] == "";
  }

  lemma PlainTextIsQuotable(u: string)
    requires forall x :: x in u ==> x !in "\"\\$"
    ensures NoSubstitution(u) && QuotesEscaped(u)
  {
    forall i | 0 <= i < |u| ensures u[i] !in "\"\\$" { assert u[i] in u; }
  }

  /** A command substitution with balanced parentheses and no heredoc disappears, quotes and
      nested substitutions in it included. */
  lemma {:induction false} SubstitutionsVanish(a: string, b: string, c: string)
    requires IsPlain(a)
    requires NoHeredoc(b) && IsBalanced(b)
    ensures Skeleton(a + "$(" + b + ")" + c) == a + Skeleton(c)
  {
    hide Skeleton, Flat, Balance, NoHeredoc, OpenThroughout;
    FlatToClose(b, c, 1);
    Regroup(b, ")", c);
    ClosedSubstitutionVanishes(a, b, c);
    assert a + "$(" + b + ")" + c == a + (Substitution(b) + c);
  }

  lemma {:induction false} FlatClose(c: string)
    ensures Flat(")" + c, 1) == 1
  {
    hide Flat;
    var t := ")" + c;
    assert t[0] == ')';
    FlatJumps(t, 1);
    FlatEnds(t[1..], 0);
  }

  /** A heredoc whose closing line never comes swallows the rest, header included. */
  lemma OpenHeredocSwallowsAll(a: string, t: string)
    requires IsPlain(a)
    requires HeaderOf(t).Some? && TerminatorEnd(t[HeaderOf(t).value.length..], HeaderOf(t).value.delim).None?
    ensures Skeleton(a + t) == a
  {
    hide Skeleton, Flat, BodyLen;
    PlainTextStays(a, t);
    SkeletonSteps(t);
    SkeletonSteps("");
    assert t[|t|..] == "";
  }

  /** A heredoc that is closed disappears, header and closing line included, and the scan goes on
      right behind it. */
  lemma HeredocsVanish(a: string, h: string, c: string)
    requires IsPlain(a) && HeredocLen(h + c) == Some(|h|)
    ensures Skeleton(a + (h + c)) == a + Skeleton(c)
  {
    hide Skeleton, Flat, BodyLen, IsPlain;
    var t := h + c;
    FrontOfHeredoc(t);
    assert t[|h|..] == c;
    hide Front, HeredocLen;
    FrontVanishes(a, t, |h|);
  }

  lemma FrontOfHeredoc(t: string)
    requires HeredocLen(t).Some?
    ensures t != "" && Front(t) == ("", HeredocLen(t).value)
  {
    hide Flat, BodyLen, TerminatorEnd;
    assert t[0..] == t && HeaderOf(t).Some?;
    StartsWith(t, 0, '<', '<');
    StartsWith(t, 0, '$', '(');
    StartsWith(t, 0, '$', '\'');
  }

  /** Such as a message between its header and the first line that closes it: the command behind
      the heredoc stays visible. */
  lemma MessageHeredocVanishes(a: string, delim: string, message: string, c: string)
    requires IsPlain(a) && delim != "" && '\'' !in delim && '\n' !in delim
    requires forall line :: line in Split(message, '\n') ==> !ClosesHeredoc(line, delim)
    ensures Skeleton(a + (MessageHeredoc(delim, message) + c)) == a + Skeleton(c)
  {
    hide Skeleton, HeredocLen, IsPlain, ClosesHeredoc, Split;
    MessageHeredocIsOne(delim, message, c);
    HeredocsVanish(a, MessageHeredoc(delim, message), c);
  }

  /** An ANSI-C string disappears like a single-quoted one. */
  lemma AnsiQuotesVanish(a: string, b: string, c: string)
    requires IsPlain(a) && '\'' !in b
    ensures Skeleton(a + ("$'" + b + "'" + c)) == a + Skeleton(c)
  {
    hide Skeleton, Flat, BodyLen, IsPlain;
    var t := "$'" + b + "'" + c;
    assert t[0..] == t;
    StartsWith(t, 0, '$', '\'');
    FirstIndex(b, '\'', c);
    assert t[2..] == b + ['\''] + c;
    assert t[|b| + 3..] == c;
    FrontVanishes(a, t, |b| + 3);
  }

  /** A dollar sign before neither a parenthesis nor a single quote, and a `<` that opens no heredoc,
      are kept. */
  lemma LoneCharactersStay(a: string, x: char, c: string)
    requires IsPlain(a)
    requires || (x == '$' && (c == "" || (c[0] != '(' && c[0] != '\'')))
             || (x == '<' && HeaderOf([x] + c).None?)
    ensures Skeleton(a + ([x] + c)) == a + [x] + Skeleton(c)
  {
    hide Skeleton, Flat, BodyLen, IsPlain;
    var t := [x] + c;
    assert t[0..] == t && t[1..] == c;
    StartsWith(t, 0, '<', '<');
    StartsWith(t, 0, '$', '(');
    StartsWith(t, 0, '$', '\'');
    assert Front(t) == ([x], 1);
    hide Front, HeaderOf;
    PlainTextStays(a, t);
    SkeletonSteps(t);
    Regroup(a, [x], Skeleton(c));
  }

  /** An open double-quoted body is read to the end of the input. */
  lemma OpenBodyRunsOut(b: string)
    requires NoSubstitution(b) && forall i :: 0 <= i < |b| && b[i] == '"' ==> Escaped(b, i)
    ensures BodyLen(b) == |b|
  {
    hide BodyLen;
    NotEscaped(b, 0);
    BodySteps("");
    var end := if Escaped(b, |b|) then |b| - 1 else |b|;
    BodyReaches(b, 0, end);
    assert b[0..] == b && b[|b|..] == "";
    if Escaped(b, |b|) {
      var last := b[end..];
      BodySteps(last);
      assert last[1..] == "";
    }
  }

  /** An open double quote drops everything from there on and keeps what came before. */
  lemma OpenDoubleQuoteSwallowsAll(a: string, b: string)
    requires IsPlain(a) && NoSubstitution(b) && forall i :: 0 <= i < |b| && b[i] == '"' ==> Escaped(b, i)
    ensures Skeleton(a + ("\"" + b)) == a
  {
    OpenBodyRunsOut(b);
    var t := "\"" + b;
    assert t[1..] == b;
    hide BodyLen, Flat, Skeleton, IsPlain, NoSubstitution, Escaped;
    FrontSwallows(a, t);
  }

  /** So does a substitution that is never closed. */
  lemma OpenSubstitutionSwallowsAll(a: string, b: string)
    requires IsPlain(a) && NoHeredoc(b) && OpenThroughout(b, 1)
    ensures Skeleton(a + ("$(" + b)) == a
  {
    hide IsPlain, NoHeredoc, OpenThroughout, BodyLen, Flat, Skeleton, Front;
    var t := "$(" + b;
    assert t[0..] == t && t[2..] == b && b + "" == b;
    StartsWith(t, 0, '$', '(');
    FlatThrough(b, "", 1);
    FlatEnds("", Balance(b, 1));
    FrontOfSubstitution(t);
    FrontSwallows(a, t);
  }

  lemma {:induction false} NoIndex(b: string, c: char)
    requires c !in b
    ensures IndexOf(b, c).None?
  {
    if b != "" {
      NoIndex(b[1..], c);
    }
  }

  /** So does a substitution with a `<<` in it that opens no heredoc: there the scan gives up. */
  lemma BrokenHeredocSwallowsAll(a: string, b: string, t: string)
    requires IsPlain(a) && NoHeredoc(b) && OpenThroughout(b, 1) && (b != "" ==> b[|b| - 1] != '<')
    requires "<<" <= t && HeaderOf(t).None?
    ensures Skeleton(a + ("$(" + (b + t))) == a
  {
    hide IsPlain, NoHeredoc, OpenThroughout, BodyLen, Flat, Skeleton, Front, HeaderOf;
    var u := "$(" + (b + t);
    assert u[0..] == u && u[2..] == b + t;
    StartsWith(u, 0, '$', '(');
    FlatThrough(b, t, 1);
    FlatJumps(t, Balance(b, 1));
    FlatEnds(t[|t|..], Balance(b, 1));
    FrontOfSubstitution(u);
    FrontSwallows(a, u);
  }

  /** And an open single quote, plain or ANSI-C. */
  lemma OpenQuoteSwallowsAll(a: string, b: string)
    requires IsPlain(a) && '\'' !in b
    ensures Skeleton(a + ("'" + b)) == a && Skeleton(a + ("$'" + b)) == a
  {
    hide Skeleton, Flat, BodyLen, IsPlain;
    var t, u := "'" + b, "$'" + b;
    assert t[1..] == b && u[2..] == b && u[0..] == u;
    StartsWith(u, 0, '$', '\'');
    NoIndex(b, '\'');
    FrontSwallows(a, t);
    FrontSwallows(a, u);
  }

  lemma FrontSwallows(a: string, t: string)
    requires IsPlain(a) && t != "" && Front(t) == ("", |t|)
    ensures Skeleton(a + t) == a
  {
    hide Skeleton, Front, IsPlain;
    FrontVanishes(a, t, |t|);
    SkeletonEnds(t, a);
  }
}
