/** The two directory walkers and their shared ignore matcher (internal/walker). */
module Walker {
  import opened Options
  import opened Ordering
  import opened Sensitive
  import opened Text

  // ---- The ignore matcher ---------------------------------------------------

  /** Whether a matcher compiled from these lines matches this path (go-gitignore). */
  type Engine = (seq<string>, string) -> bool

  function TrimReturns(line: string): string {
    if line != "" && line[|line| - 1] == '\r' then TrimReturns(line[..|line| - 1]) else line
  }

  function PatternLines(text: string): seq<string> {
    var raw := Split(text, '\n');
    seq(|raw|, i requires 0 <= i < |raw| => TrimReturns(raw[i]))
  }

  lemma {:induction false} TrimsReturns(line: string, cr: string)
    requires line == "" || line[|line| - 1] != '\r'
    requires forall i :: 0 <= i < |cr| ==> cr[i] == '\r'
    ensures TrimReturns(line + cr) == line
  {
    if cr == "" {
      assert line + cr == line;
    } else {
      var n := |cr| - 1;
      assert (line + cr)[..|line| + n] == line + cr[..n];
      TrimsReturns(line, cr[..n]);
    }
  }

  /** One pattern for each line of the text, without the carriage returns at its end. */
  lemma LinesAre(line: string, cr: string, text: string)
    requires '\n' !in line && (line == "" || line[|line| - 1] != '\r')
    requires forall i :: 0 <= i < |cr| ==> cr[i] == '\r'
    ensures PatternLines(line + cr) == [line]
    ensures PatternLines(line + cr + "\n" + text) == [line] + PatternLines(text)
  {
    hide Split, TrimReturns;
    SplitAfter(line + cr, text, '\n');
    TrimsReturns(line, cr);
    assert line + cr + "\n" + text == line + cr + ['\n'] + text;
  }

  /** The lines are a Go slice: a count and a backing array that may have room to spare. */
  class IgnoreMatcher {
    const engine: Engine
    var data: array<string>
    var count: nat
    /** The lines that the compiled matcher was built from. */
    var compiled: seq<string>
    var compiledLen: nat

    ghost predicate Valid()
      reads this, data
    {
      && count <= data.Length
      && compiledLen == |compiled| <= count && compiled == data[..compiledLen]
    }

    ghost function Lines(): seq<string>
      requires Valid()
      reads this, data
    {
      data[..count]
    }

    constructor (engine: Engine)
      ensures Valid() && Lines() == [] && this.engine == engine && fresh(data)
    {
      this.engine := engine;
      data := new string[0];
      count, compiled, compiledLen := 0, [], 0;
    }

    constructor Copy(other: IgnoreMatcher)
      requires other.Valid()
      ensures Valid() && Lines() == other.Lines() && engine == other.engine && fresh(data)
    {
      engine := other.engine;
      var lines := new string[other.count](
        i requires 0 <= i < other.count && other.Valid() reads other, other.data => other.data[i]);
      data, count := lines, other.count;
      compiled, compiledLen := other.compiled, other.compiledLen;
      new;
      assert data[..count] == other.Lines();
      assert data[..compiledLen] == other.Lines()[..compiledLen];
    }

    /** `append`: in place while there is room, else into a larger array. */
    method Append(line: string)
      requires Valid()
      modifies this`data, this`count, data
      ensures Valid() && Lines() == old(Lines()) + [line]
      ensures data == old(data) || fresh(data)
    {
      if count == data.Length {
        var larger := new string[2 * count + 1];
        for i := 0 to count
          invariant Valid() && Lines() == old(Lines()) && data == old(data) && count == old(count)
          invariant larger[..i] == data[..i]
        {
          larger[i] := data[i];
        }
        assert larger[..compiledLen] == larger[..count][..compiledLen] == data[..count][..compiledLen];
        data := larger;
      }
      ghost var before := data[..count];
      data[count] := line;
      count := count + 1;
      assert data[..count] == before + [line];
      assert data[..compiledLen] == before[..compiledLen];
    }

    /** `add`: the compiled matcher is left alone. */
    method AddLines(text: string)
      requires Valid()
      modifies this`data, this`count, data
      ensures Valid() && Lines() == old(Lines()) + PatternLines(text)
      ensures data == old(data) || fresh(data)
    {
      var raw := Split(text, '\n');
      for i := 0 to |raw|
        invariant Valid() && Lines() == old(Lines()) + PatternLines(text)[..i]
        invariant data == old(data) || fresh(data)
      {
        Append(TrimReturns(raw[i]));
      }
    }

    /** `matches`: recompiles only when lines were added, and answers as if it always did. */
    method Matches(path: string) returns (r: bool)
      requires Valid()
      modifies this`compiled, this`compiledLen
      ensures Valid() && Lines() == old(Lines())
      ensures r == engine(Lines(), path)
    {
      if count != compiledLen {
        compiled := data[..count];
        compiledLen := count;
      }
      r := engine(compiled, path);
    }

    /** `clone`: the copy has its own backing array. */
    method Clone() returns (c: IgnoreMatcher)
      requires Valid()
      ensures fresh(c) && fresh(c.data) && c.Valid() && c.Lines() == Lines() && c.engine == engine
    {
      c := new IgnoreMatcher.Copy(this);
    }
  }

  /** Two copies that learn different patterns answer as if the other did not exist, and so
      does the original, whatever room its backing array has. */
  method CopiesDiverge(root: IgnoreMatcher, textA: string, textB: string, textR: string, path: string)
    returns (a: bool, b: bool, r: bool)
    requires root.Valid()
    modifies root, root.data
    ensures a == root.engine(old(root.Lines()) + PatternLines(textA), path)
    ensures b == root.engine(old(root.Lines()) + PatternLines(textB), path)
    ensures r == root.engine(old(root.Lines()) + PatternLines(textR), path)
  {
    hide PatternLines;
    var one := root.Clone();
    var two := root.Clone();
    one.AddLines(textA);
    root.AddLines(textR);
    two.AddLines(textB);
    b := two.Matches(path);
    a := one.Matches(path);
    r := root.Matches(path);
  }

  // ---- Extensions -----------------------------------------------------------

  /** `filepath.Ext`: from the last dot of the last path element. */
  function Ext(path: string): string {
    if path == "" then ""
    else
      var n := |path| - 1;
      if path[n] == '.' then "."
      else if path[n] == '/' then ""
      else
        var e := Ext(path[..n]);
        if e == "" then "" else e + [path[n]]
  }

  const DOC_EXTENSIONS := {".md", ".mdx", ".pdf", ".txt", ".rst"}

  /** `IsDocExtension`: with or without the dot. */
  predicate IsDocExtension(ext: string) {
    var l := Lower(ext);
    (if l != "" && l[0] != '.' then "." + l else l) in DOC_EXTENSIONS
  }

  /** `ClassifyFile(path) == ClassDoc`. */
  predicate IsDocPath(path: string) { Lower(Ext(path)) in DOC_EXTENSIONS }

  /** The last dot of the last element and what follows it, or nothing. */
  lemma ExtIs(path: string)
    ensures var e := Ext(path);
            && HasSuffix(path, e)
            && (e == "" || (e[0] == '.' && '.' !in e[1..] && '/' !in e))
            && (e == "" ==> forall i :: 0 <= i < |path| && path[i] == '.' ==> '/' in path[i..])
  {
    hide Ext, HasSuffix;
    ExtIsSuffix(path);
    ExtIsLast(path);
    if Ext(path) == "" {
      ExtMissing(path);
    }
  }

  lemma {:induction false} ExtIsSuffix(path: string)
    ensures HasSuffix(path, Ext(path))
  {
    if path != "" {
      var n := |path| - 1;
      ExtIsSuffix(path[..n]);
      assert path == path[..n] + [path[n]];
    }
  }

  lemma {:induction false} ExtIsLast(path: string)
    ensures var e := Ext(path); e == "" || (e[0] == '.' && '.' !in e[1..] && '/' !in e)
  {
    if path != "" {
      ExtIsLast(path[..|path| - 1]);
    }
  }

  lemma {:induction false} ExtMissing(path: string)
    requires Ext(path) == ""
    ensures forall i :: 0 <= i < |path| && path[i] == '.' ==> '/' in path[i..]
  {
    if path != "" {
      var n := |path| - 1;
      forall i | 0 <= i < |path| && path[i] == '.' ensures '/' in path[i..] {
        if path[n] == '/' {
          assert path[i..][n - i] == '/';
        } else {
          ExtMissing(path[..n]);
          assert path[..n][i] == '.' && path[i..] == path[..n][i..] + [path[n]];
        }
      }
    }
  }

  /** A document is what ends, in either case, in one of five extensions. */
  lemma DocPathIff(path: string)
    ensures IsDocPath(path) <==>
              var l := Lower(path);
              || HasSuffix(l, ".md") || HasSuffix(l, ".mdx") || HasSuffix(l, ".pdf") || HasSuffix(l, ".txt")
              || HasSuffix(l, ".rst")
  {
    hide Ext, HasSuffix, Lower;
    ExtensionIff(path, ".md");
    ExtensionIff(path, ".mdx");
    ExtensionIff(path, ".pdf");
    ExtensionIff(path, ".txt");
    ExtensionIff(path, ".rst");
  }

  lemma ExtensionIff(path: string, e: string)
    requires e in DOC_EXTENSIONS
    ensures Lower(Ext(path)) == e <==> HasSuffix(Lower(path), e)
  {
    var x, l := Ext(path), Lower(path);
    hide Ext, Lower;
    ExtIs(path);
    SuffixOfLower(path, |x|);
    if HasSuffix(l, e) {
      SuffixOfLower(path, |e|);
      PlainExtension(path, e);
      LastDot(path, |path| - |e|);
    }
  }

  lemma SuffixOfLower(path: string, n: nat)
    requires n <= |path|
    ensures |Lower(path)| == |path| && Lower(path[|path| - n..]) == Lower(path)[|path| - n..]
  {
  }

  lemma PlainExtension(path: string, e: string)
    requires e in DOC_EXTENSIONS && HasSuffix(Lower(path), e)
    ensures |e| <= |path| && path[|path| - |e|] == '.'
    ensures forall i :: |path| - |e| < i < |path| ==> path[i] != '.' && path[i] != '/'
  {
    var from := |path| - |e|;
    assert forall j :: 0 < j < |e| ==> e[j] != '.' && e[j] != '/';
    forall i | from <= i < |path|
      ensures LowerChar(path[i]) == e[i - from]
      ensures i > from ==> path[i] != '.' && path[i] != '/'
    {
      assert Lower(path)[from..][i - from] == e[i - from];
    }
  }

  lemma LastDot(path: string, at: nat)
    requires at < |path| && path[at] == '.' && forall i :: at < i < |path| ==> path[i] != '.' && path[i] != '/'
    ensures |Ext(path)| == |path| - at
  {
    ExtIs(path);
    hide Ext;
    var x := Ext(path);
    var from := |path| - |x|;
    assert path[from..] == x && '/' !in path[at..];
    forall i | from < i < |path| ensures path[i] != '.' { assert path[i] == x[1..][i - from - 1]; }
  }

  function Join(dir: string, name: string): string { if dir == "" then name else dir + "/" + name }

  /** The extension of a joined path is the extension of its last name. */
  lemma {:induction false} ExtOfJoined(dir: string, name: string)
    requires '/' !in name
    ensures Ext(dir + "/" + name) == Ext(name)
  {
    var path := dir + "/" + name;
    if name == "" {
      assert path[|path| - 1] == '/';
    } else {
      var n := |name| - 1;
      ExtOfJoined(dir, name[..n]);
      assert path[..|path| - 1] == dir + "/" + name[..n];
    }
  }

  /** The document walker's test on the name is the code walker's test on the path. */
  lemma SameBucket(dir: string, name: string)
    requires '/' !in name
    ensures IsDocExtension(Ext(name)) <==> IsDocPath(Join(dir, name))
  {
    ExtOfJoined(dir, name);
    ExtIsLast(name);
    hide Ext;
  }

  // ---- Directory trees ------------------------------------------------------

  datatype Node =
    | File(name: string, regular: bool, readable: bool, binary: bool)
    | Dir(name: string, readable: bool, gitignore: Option<string>, children: seq<Node>)
    | Symlink(name: string)

  datatype Kind = Code | Docs

  /** Everything the walkers consult besides the tree: the ignore engine, the re-rooting of
      nested patterns, and the two answers of .browzerignore. */
  datatype Rules = Rules(
    engine: Engine,
    reroot: (string, string) -> string,
    browzerIgnores: string -> bool,
    optsIn: string -> bool)

  const MAX_DEPTH: nat := 32

  const DEFAULT_IGNORE_DIRS := {"node_modules", "dist", "build", "__pycache__", "coverage", "venv", "env", "skills"}

  const DEFAULT_IGNORE_SUFFIXES := ["test/fixtures", "CLAUDE.md", "AGENTS.md"]

  predicate IsDefaultIgnoredPath(path: string) {
    exists i :: 0 <= i < |DEFAULT_IGNORE_SUFFIXES| &&
      (Posix(path) == DEFAULT_IGNORE_SUFFIXES[i] || HasSuffix(Posix(path), "/" + DEFAULT_IGNORE_SUFFIXES[i]))
  }

  /** The three names and paths that are ignored by default, at any depth. */
  lemma DefaultIgnoredIff(path: string)
    ensures IsDefaultIgnoredPath(path) <==>
              var p := Posix(path);
              || p in ["test/fixtures", "CLAUDE.md", "AGENTS.md"]
              || HasSuffix(p, "/test/fixtures") || HasSuffix(p, "/CLAUDE.md") || HasSuffix(p, "/AGENTS.md")
  {
    hide HasSuffix, Posix;
    var s := DEFAULT_IGNORE_SUFFIXES;
    assert "/" + s[0] == "/test/fixtures" && "/" + s[1] == "/CLAUDE.md" && "/" + s[2] == "/AGENTS.md";
  }

  predicate Hidden(name: string) { "." <= name }

  /** Both walkers' tests on a directory; only the document walker knows opting in. */
  predicate Enters(rules: Rules, kind: Kind, name: string, path: string, lines: seq<string>) {
    && name !in DEFAULT_IGNORE_DIRS
    && (IsDefaultIgnoredPath(path) ==> kind.Docs? && rules.optsIn(path + "/"))
    && !rules.engine(lines, path + "/")
    && !rules.browzerIgnores(path + "/")
  }

  /** `processRegularFile` for code, the tail of `walkDocsRec` for documents: every test that
      comes before the file is opened. */
  ghost predicate Opens(rules: Rules, kind: Kind, file: Node, path: string, lines: seq<string>)
    requires file.File?
  {
    && file.regular
    && !SecretPath(path)
    && !rules.engine(lines, path)
    && !rules.browzerIgnores(path)
    && match kind
       case Code => !IsDocPath(path)
       case Docs => IsDocExtension(Ext(file.name)) && (IsDefaultIgnoredPath(path) ==> rules.optsIn(path))
  }

  // ---- What the walkers return ----------------------------------------------

  /** `touched`: the files that were opened, returned or not. */
  datatype Walk = Walk(files: seq<string>, touched: seq<string>, lines: seq<string>) {
    /** This walk, followed by one that starts with its lines. */
    function Then(next: Walk): Walk { Walk(files + next.files, touched + next.touched, next.lines) }
  }

  function NoWalk(lines: seq<string>): Walk { Walk([], [], lines) }

  function NestedLines(rules: Rules, dir: Node, rel: string, lines: seq<string>): seq<string>
    requires dir.Dir?
  {
    if rel != "" && dir.gitignore.Some? then lines + PatternLines(rules.reroot(dir.gitignore.value, rel)) else lines
  }

  /** The contents of a directory.  Patterns of nested ignore files stay in force for whatever
      is visited later with the same matcher. */
  ghost function WalkDir(rules: Rules, kind: Kind, dir: Node, rel: string, lines: seq<string>, depth: nat): Walk
    requires dir.Dir?
    decreases dir, 0
  {
    if depth > MAX_DEPTH || !dir.readable then NoWalk(lines)
    else WalkEntries(rules, kind, dir.children, rel, NestedLines(rules, dir, rel, lines), depth)
  }

  ghost function WalkEntries(rules: Rules, kind: Kind, entries: seq<Node>, rel: string, lines: seq<string>,
                             depth: nat): Walk
    decreases entries, 1
  {
    if entries == [] then NoWalk(lines)
    else
      var n := |entries| - 1;
      var before := WalkEntries(rules, kind, entries[..n], rel, lines, depth);
      before.Then(WalkEntry(rules, kind, entries[n], rel, before.lines, depth))
  }

  ghost function WalkEntry(rules: Rules, kind: Kind, entry: Node, rel: string, lines: seq<string>, depth: nat): Walk
    decreases entry, 1
  {
    var path := Join(rel, entry.name);
    if Hidden(entry.name) || entry.Symlink? then NoWalk(lines)
    else if entry.Dir? then
      if Enters(rules, kind, entry.name, path, lines) then WalkDir(rules, kind, entry, path, lines, depth + 1)
      else NoWalk(lines)
    else WalkFile(rules, kind, entry, path, lines)
  }

  ghost function WalkFile(rules: Rules, kind: Kind, file: Node, path: string, lines: seq<string>): Walk
    requires file.File?
  {
    if !Opens(rules, kind, file, path, lines) then NoWalk(lines)
    else Walk(if file.readable && !file.binary then [path] else [], [path], lines)
  }

  lemma OfDir(rules: Rules, kind: Kind, dir: Node, rel: string, lines: seq<string>, depth: nat)
    requires dir.Dir?
    ensures WalkDir(rules, kind, dir, rel, lines, depth) ==
              if depth > MAX_DEPTH || !dir.readable then NoWalk(lines)
              else WalkEntries(rules, kind, dir.children, rel, NestedLines(rules, dir, rel, lines), depth)
    ensures NestedLines(rules, dir, rel, lines) ==
              if rel == "" || dir.gitignore.None? then lines
              else lines + PatternLines(rules.reroot(dir.gitignore.value, rel))
  {
    hide WalkEntries, PatternLines;
  }

  lemma {:induction false} NoEntries(rules: Rules, kind: Kind, rel: string, lines: seq<string>, depth: nat)
    ensures WalkEntries(rules, kind, [], rel, lines, depth) == NoWalk(lines)
  {
  }

  lemma {:induction false} OneMoreEntry(rules: Rules, kind: Kind, entries: seq<Node>, i: nat, rel: string,
                                        lines: seq<string>, depth: nat)
    requires i < |entries|
    ensures var before := WalkEntries(rules, kind, entries[..i], rel, lines, depth);
            WalkEntries(rules, kind, entries[..i + 1], rel, lines, depth) ==
            before.Then(WalkEntry(rules, kind, entries[i], rel, before.lines, depth))
  {
    hide WalkEntry;
    assert entries[..i + 1][..i] == entries[..i];
  }

  /** `walk` and `walkDocsRec`. */
  method WalkDirectory(rules: Rules, kind: Kind, dir: Node, rel: string, matcher: IgnoreMatcher, depth: nat)
    returns (files: seq<string>, ghost touched: seq<string>)
    requires dir.Dir? && matcher.Valid() && matcher.engine == rules.engine
    modifies matcher, matcher.data
    ensures matcher.Valid() && (matcher.data == old(matcher.data) || fresh(matcher.data))
    ensures Walk(files, touched, matcher.Lines()) == WalkDir(rules, kind, dir, rel, old(matcher.Lines()), depth)
    decreases dir, 0
  {
    hide WalkDir, WalkEntries, WalkEntry, NestedLines, PatternLines;
    OfDir(rules, kind, dir, rel, matcher.Lines(), depth);
    files, touched := [], [];
    if depth > MAX_DEPTH || !dir.readable {
      return;
    }
    if rel != "" && dir.gitignore.Some? {
      matcher.AddLines(rules.reroot(dir.gitignore.value, rel));
    }
    ghost var lines := matcher.Lines();
    NoEntries(rules, kind, rel, lines, depth);
    for i := 0 to |dir.children|
      invariant matcher.Valid() && (matcher.data == old(matcher.data) || fresh(matcher.data))
      invariant Walk(files, touched, matcher.Lines()) == WalkEntries(rules, kind, dir.children[..i], rel, lines, depth)
    {
      OneMoreEntry(rules, kind, dir.children, i, rel, lines, depth);
      var found, more := VisitEntry(rules, kind, dir.children[i], rel, matcher, depth);
      files, touched := files + found, touched + more;
    }
    assert dir.children[..|dir.children|] == dir.children;
  }

  method VisitEntry(rules: Rules, kind: Kind, entry: Node, rel: string, matcher: IgnoreMatcher, depth: nat)
    returns (files: seq<string>, ghost touched: seq<string>)
    requires matcher.Valid() && matcher.engine == rules.engine
    modifies matcher, matcher.data
    ensures matcher.Valid() && (matcher.data == old(matcher.data) || fresh(matcher.data))
    ensures Walk(files, touched, matcher.Lines()) == WalkEntry(rules, kind, entry, rel, old(matcher.Lines()), depth)
    decreases entry, 1
  {
    files, touched := [], [];
    if Hidden(entry.name) || entry.Symlink? {
      return;
    }
    var path := Join(rel, entry.name);
    if entry.Dir? {
      var enters := MayEnter(rules, kind, entry.name, path, matcher);
      if enters {
        files, touched := WalkDirectory(rules, kind, entry, path, matcher, depth + 1);
      }
      return;
    }
    files, touched := ProcessFile(rules, kind, entry, path, matcher);
  }

  method MayEnter(rules: Rules, kind: Kind, name: string, path: string, matcher: IgnoreMatcher) returns (r: bool)
    requires matcher.Valid() && matcher.engine == rules.engine
    modifies matcher`compiled, matcher`compiledLen
    ensures matcher.Valid() && matcher.Lines() == old(matcher.Lines())
    ensures r <==> Enters(rules, kind, name, path, matcher.Lines())
  {
    if name in DEFAULT_IGNORE_DIRS {
      return false;
    }
    if IsDefaultIgnoredPath(path) && !(kind.Docs? && rules.optsIn(path + "/")) {
      return false;
    }
    var ignored := matcher.Matches(path + "/");
    r := !ignored && !rules.browzerIgnores(path + "/");
  }

  method ProcessFile(rules: Rules, kind: Kind, file: Node, path: string, matcher: IgnoreMatcher)
    returns (files: seq<string>, ghost touched: seq<string>)
    requires file.File? && matcher.Valid() && matcher.engine == rules.engine
    modifies matcher`compiled, matcher`compiledLen
    ensures matcher.Valid() && matcher.Lines() == old(matcher.Lines())
    ensures Walk(files, touched, matcher.Lines()) == WalkFile(rules, kind, file, path, old(matcher.Lines()))
  {
    hide SecretPath;
    files, touched := [], [];
    if !file.regular {
      return;
    }
    var sensitive := IsSensitive(path);
    if sensitive {
      return;
    }
    if kind.Docs? && ((IsDefaultIgnoredPath(path) && !rules.optsIn(path)) || !IsDocExtension(Ext(file.name))) {
      return;
    }
    var ignored := matcher.Matches(path);
    if ignored || rules.browzerIgnores(path) || (kind.Code? && IsDocPath(path)) {
      return;
    }
    touched := [path];
    if file.binary || !file.readable {
      return;
    }
    files := [path];
  }

  /** `WalkDocs`: one matcher for the whole tree. */
  method WalkDocs(rules: Rules, root: Node, matcher: IgnoreMatcher)
    returns (files: seq<string>, ghost touched: seq<string>)
    requires root.Dir? && matcher.Valid() && matcher.engine == rules.engine
    modifies matcher, matcher.data
    ensures var w := WalkDir(rules, Docs, root, "", old(matcher.Lines()), 0); files == w.files && touched == w.touched
  {
    files, touched := WalkDirectory(rules, Docs, root, "", matcher, 0);
  }

  // ---- What every returned path satisfies -----------------------------------

  /** Directory entries as a file system delivers them: non-empty, distinct names without separators. */
  predicate WellNamed(entries: seq<Node>) {
    && (forall i :: 0 <= i < |entries| ==> entries[i].name != "" && '/' !in entries[i].name)
    && (forall i, j :: 0 <= i < j < |entries| ==> entries[i].name != entries[j].name)
    && (forall i :: 0 <= i < |entries| && entries[i].Dir? ==> WellNamed(entries[i].children))
  }

  function Slashes(s: string): nat {
    if s == "" then 0 else Slashes(s[..|s| - 1]) + if s[|s| - 1] == '/' then 1 else 0
  }

  /** No path element starts with a dot. */
  predicate NoHiddenElement(s: string) {
    forall i :: 0 <= i < |s| && s[i] == '.' ==> i > 0 && s[i - 1] != '/'
  }

  lemma {:induction false} SlashesOfJoin(dir: string, name: string)
    requires '/' !in name
    ensures Slashes(dir + "/" + name) == Slashes(dir) + 1
  {
    var s := dir + "/" + name;
    if name == "" {
      assert s[..|s| - 1] == dir;
    } else {
      assert s[..|s| - 1] == dir + "/" + name[..|name| - 1];
      SlashesOfJoin(dir, name[..|name| - 1]);
    }
  }

  lemma {:induction false} NoSlashes(name: string)
    requires '/' !in name
    ensures Slashes(name) == 0
  {
    if name != "" {
      NoSlashes(name[..|name| - 1]);
    }
  }

  /** `path` is `base` itself or lies below it. */
  predicate Under(path: string, base: string) { base == path || base + "/" <= path }

  /** The promises about one returned path; the keywords of the blocklist are looked for in its
      last element. */
  ghost predicate GoodPath(kind: Kind, path: string) {
    && !MatchesPattern(Posix(path)) && !NamesSecret(Base(Posix(path)))
    && (IsDocPath(path) <==> kind.Docs?)
    && NoHiddenElement(path)
    && Slashes(path) <= MAX_DEPTH
  }

  /** The directory whose relative path is `rel` has been reached at `depth`. */
  predicate Reached(rel: string, depth: nat) {
    NoHiddenElement(rel) && if rel == "" then depth == 0 else Slashes(rel) + 1 == depth
  }

  lemma JoinIsReached(rel: string, depth: nat, name: string)
    requires Reached(rel, depth) && name != "" && '/' !in name && !Hidden(name)
    ensures Reached(Join(rel, name), depth + 1) && Slashes(Join(rel, name)) == depth
    ensures NoHiddenElement(Join(rel, name))
  {
    if rel == "" {
      NoSlashes(name);
    } else {
      SlashesOfJoin(rel, name);
    }
    hide Slashes;
    assert name[0] != '.' by {
      assert name[0] == '.' ==> "." <= name;
    }
    var path := Join(rel, name);
    forall i | 0 <= i < |path| && path[i] == '.' ensures i > 0 && path[i - 1] != '/' {
      var offset := |path| - |name|;
      if i >= offset {
        assert path[i] == name[i - offset] && i > offset && path[i - 1] == name[i - 1 - offset];
      } else {
        assert path[i] == rel[i];
      }
    }
  }

  /** Every file opened below an entry lies under it and is a good one. */
  lemma {:induction false} EntryPathsAreGood(rules: Rules, kind: Kind, entry: Node, rel: string, lines: seq<string>,
                                             depth: nat, path: string)
    requires Reached(rel, depth) && depth <= MAX_DEPTH
    requires entry.name != "" && '/' !in entry.name && (entry.Dir? ==> WellNamed(entry.children))
    requires path in WalkEntry(rules, kind, entry, rel, lines, depth).touched
    ensures GoodPath(kind, path) && Under(path, Join(rel, entry.name))
    decreases entry, 1
  {
    hide Slashes, IsDocPath, NoHiddenElement, Reached, MatchesPattern, NamesSecret, Base, Enters, Ext;
    JoinIsReached(rel, depth, entry.name);
    SameBucket(rel, entry.name);
    if entry.Dir? {
      DirPathsAreGood(rules, kind, entry, Join(rel, entry.name), lines, depth + 1, path);
    }
  }

  lemma {:induction false} DirPathsAreGood(rules: Rules, kind: Kind, dir: Node, rel: string, lines: seq<string>,
                                           depth: nat, path: string)
    requires dir.Dir? && Reached(rel, depth) && WellNamed(dir.children) && rel != ""
    requires path in WalkDir(rules, kind, dir, rel, lines, depth).touched
    ensures GoodPath(kind, path) && Under(path, rel)
    decreases dir, 0
  {
    hide Slashes, GoodPath, WalkEntry;
    var k := EntryOf(rules, kind, dir.children, rel, NestedLines(rules, dir, rel, lines), depth, path);
    var own := WalkEntries(rules, kind, dir.children[..k], rel, NestedLines(rules, dir, rel, lines), depth).lines;
    EntryPathsAreGood(rules, kind, dir.children[k], rel, own, depth, path);
    assert Join(rel, dir.children[k].name) == rel + "/" + dir.children[k].name;
  }

  /** The entry that a path of the directory comes from. */
  lemma {:induction false} EntryOf(rules: Rules, kind: Kind, entries: seq<Node>, rel: string, lines: seq<string>,
                                   depth: nat, path: string) returns (k: nat)
    requires path in WalkEntries(rules, kind, entries, rel, lines, depth).touched
    ensures k < |entries|
    ensures path in WalkEntry(rules, kind, entries[k], rel,
                              WalkEntries(rules, kind, entries[..k], rel, lines, depth).lines, depth).touched
    decreases |entries|
  {
    hide WalkEntry;
    var n := |entries| - 1;
    if path in WalkEntries(rules, kind, entries[..n], rel, lines, depth).touched {
      k := EntryOf(rules, kind, entries[..n], rel, lines, depth, path);
      assert entries[..n][..k] == entries[..k];
    } else {
      k := n;
    }
  }

  /** Only opened files are returned. */
  lemma {:induction false} EntryReturnsTouched(rules: Rules, kind: Kind, entry: Node, rel: string, lines: seq<string>,
                                               depth: nat, path: string)
    requires path in WalkEntry(rules, kind, entry, rel, lines, depth).files
    ensures path in WalkEntry(rules, kind, entry, rel, lines, depth).touched
    decreases entry, 1
  {
    hide Opens, Enters;
    if entry.Dir? {
      var own := Join(rel, entry.name);
      EntriesReturnTouched(rules, kind, entry.children, own, NestedLines(rules, entry, own, lines), depth + 1, path);
    }
  }

  lemma {:induction false} EntriesReturnTouched(rules: Rules, kind: Kind, entries: seq<Node>, rel: string,
                                                lines: seq<string>, depth: nat, path: string)
    requires path in WalkEntries(rules, kind, entries, rel, lines, depth).files
    ensures path in WalkEntries(rules, kind, entries, rel, lines, depth).touched
    decreases entries, 1
  {
    var n := |entries| - 1;
    var before := WalkEntries(rules, kind, entries[..n], rel, lines, depth);
    if path in before.files {
      EntriesReturnTouched(rules, kind, entries[..n], rel, lines, depth, path);
    } else {
      EntryReturnsTouched(rules, kind, entries[n], rel, before.lines, depth, path);
    }
    hide WalkEntry;
  }

  /** The document walker opens only good document paths, and returns none that it did not open. */
  lemma DocPathsAreGood(rules: Rules, root: Node, rootLines: seq<string>, path: string)
    requires root.Dir? && WellNamed(root.children)
    ensures var w := WalkDir(rules, Docs, root, "", rootLines, 0);
            && (path in w.files ==> path in w.touched)
            && (path in w.touched ==> GoodPath(Docs, path))
  {
    hide WalkEntry, GoodPath, WalkEntries;
    var w, lines := WalkDir(rules, Docs, root, "", rootLines, 0), NestedLines(rules, root, "", rootLines);
    if path in w.files {
      EntriesReturnTouched(rules, Docs, root.children, "", lines, 0, path);
    }
    if path in w.touched {
      var k := EntryOf(rules, Docs, root.children, "", lines, 0, path);
      var own := WalkEntries(rules, Docs, root.children[..k], "", lines, 0).lines;
      EntryPathsAreGood(rules, Docs, root.children[k], "", own, 0, path);
    }
  }

  // ---- Nested patterns outlive their directory ------------------------------

  lemma {:induction false} EntryKeepsLines(rules: Rules, kind: Kind, entry: Node, rel: string, lines: seq<string>,
                                           depth: nat)
    ensures lines <= WalkEntry(rules, kind, entry, rel, lines, depth).lines
    decreases entry, 1
  {
    hide Opens, Enters, PatternLines;
    if entry.Dir? {
      var own := Join(rel, entry.name);
      EntriesKeepLines(rules, kind, entry.children, own, NestedLines(rules, entry, own, lines), depth + 1);
    }
  }

  lemma {:induction false} EntriesKeepLines(rules: Rules, kind: Kind, entries: seq<Node>, rel: string,
                                            lines: seq<string>, depth: nat)
    ensures lines <= WalkEntries(rules, kind, entries, rel, lines, depth).lines
    decreases entries, 0
  {
    if entries != [] {
      var n := |entries| - 1;
      EntriesKeepLines(rules, kind, entries[..n], rel, lines, depth);
      EntryKeepsLines(rules, kind, entries[n], rel, WalkEntries(rules, kind, entries[..n], rel, lines, depth).lines,
        depth);
    }
    hide WalkEntry;
  }

  /** The patterns of a directory that is entered stay in force for everything visited after it with
      the same matcher, its siblings included; any other entry adds none. */
  lemma NestedPatternsStay(rules: Rules, kind: Kind, entry: Node, rel: string, lines: seq<string>, depth: nat)
    requires entry.name != "" && depth < 32
    ensures var own, after := Join(rel, entry.name), WalkEntry(rules, kind, entry, rel, lines, depth).lines;
            if entry.Dir? && !Hidden(entry.name) && Enters(rules, kind, entry.name, own, lines) && entry.readable then
              entry.gitignore.Some? ==> lines + PatternLines(rules.reroot(entry.gitignore.value, own)) <= after
            else after == lines
  {
    hide Opens, Enters, PatternLines, WalkEntries;
    if entry.Dir? {
      var own := Join(rel, entry.name);
      EntriesKeepLines(rules, kind, entry.children, own, NestedLines(rules, entry, own, lines), depth + 1);
    }
  }

  // ---- No file is forgotten -------------------------------------------------

  /** The file with this path is the entry or lies below it, it can be read, and nothing excludes
      it or a directory on the way to it; the lines are those in force where it is visited. */
  ghost predicate Shown(rules: Rules, kind: Kind, entry: Node, rel: string, lines: seq<string>, depth: nat,
                        path: string)
    decreases entry, 1
  {
    var own := Join(rel, entry.name);
    && !("." <= entry.name)
    && match entry
       case File(_, regular, readable, binary) =>
         && path == own && regular && readable && !binary
         && !MatchesPattern(Posix(own)) && !NamesSecret(Base(Posix(own)))
         && !rules.engine(lines, own) && !rules.browzerIgnores(own)
       case Dir(_, readable, _, children) =>
         && entry.name !in ["node_modules", "dist", "build", "__pycache__", "coverage", "venv", "env", "skills"]
         && (IsDefaultIgnoredPath(own) ==> kind == Docs && rules.optsIn(own + "/"))
         && !rules.engine(lines, own + "/") && !rules.browzerIgnores(own + "/")
         && readable && depth + 1 <= 32
         && ShownBelow(rules, kind, children, own, NestedLines(rules, entry, own, lines), depth + 1, path)
       case Symlink(_) => false
  }

  ghost predicate ShownBelow(rules: Rules, kind: Kind, entries: seq<Node>, rel: string, lines: seq<string>, depth: nat,
                             path: string)
    decreases entries, 0
  {
    exists i :: 0 <= i < |entries|
      && Shown(rules, kind, entries[i], rel, WalkEntries(rules, kind, entries[..i], rel, lines, depth).lines, depth,
        path)
  }

  /** Which walker a path is for; default-ignored documents are for nobody unless opted in. */
  predicate WantedBy(rules: Rules, kind: Kind, path: string) {
    match kind
    case Code => !IsDocPath(path)
    case Docs => IsDocPath(path) && (IsDefaultIgnoredPath(path) ==> rules.optsIn(path))
  }

  lemma FileReturnedIff(rules: Rules, kind: Kind, file: Node, rel: string, lines: seq<string>, depth: nat, path: string)
    requires file.File? && '/' !in file.name
    ensures path in WalkEntry(rules, kind, file, rel, lines, depth).files <==>
              Shown(rules, kind, file, rel, lines, depth, path) && WantedBy(rules, kind, path)
  {
    hide IsDocPath, IsDocExtension, MatchesPattern, NamesSecret, Base, IsDefaultIgnoredPath, Ext, Join;
    SameBucket(rel, file.name);
  }

  lemma {:induction false} ShownBelowStep(rules: Rules, kind: Kind, entries: seq<Node>, rel: string, lines: seq<string>,
                                          depth: nat, path: string)
    requires entries != []
    ensures var n := |entries| - 1;
            ShownBelow(rules, kind, entries, rel, lines, depth, path) <==>
              || ShownBelow(rules, kind, entries[..n], rel, lines, depth, path)
              || Shown(rules, kind, entries[n], rel, WalkEntries(rules, kind, entries[..n], rel, lines, depth).lines,
                depth, path)
  {
    hide Shown, WalkEntries;
    var n := |entries| - 1;
    forall i | 0 <= i < n ensures entries[..n][..i] == entries[..i] && entries[..n][i] == entries[i] {}
    if ShownBelow(rules, kind, entries[..n], rel, lines, depth, path) {
      var i :| 0 <= i < n && Shown(rules, kind, entries[..n][i], rel,
                                   WalkEntries(rules, kind, entries[..n][..i], rel, lines, depth).lines, depth, path);
      assert Shown(rules, kind, entries[i], rel, WalkEntries(rules, kind, entries[..i], rel, lines, depth).lines,
        depth, path);
    }
    if ShownBelow(rules, kind, entries, rel, lines, depth, path) {
      var i :| 0 <= i < |entries| && Shown(rules, kind, entries[i], rel,
                                           WalkEntries(rules, kind, entries[..i], rel, lines, depth).lines, depth,
                                             path);
      if i < n {
        assert Shown(rules, kind, entries[..n][i], rel,
                     WalkEntries(rules, kind, entries[..n][..i], rel, lines, depth).lines, depth, path);
      }
    }
  }

  /** A walker returns exactly the files that are shown to it and meant for it. */
  lemma {:induction false} EntryReturnsIff(rules: Rules, kind: Kind, entry: Node, rel: string, lines: seq<string>,
                                           depth: nat, path: string)
    requires '/' !in entry.name && (entry.Dir? ==> WellNamed(entry.children))
    ensures path in WalkEntry(rules, kind, entry, rel, lines, depth).files <==>
              Shown(rules, kind, entry, rel, lines, depth, path) && WantedBy(rules, kind, path)
    decreases entry, 1
  {
    hide WalkEntries, ShownBelow, WantedBy, IsDefaultIgnoredPath;
    if entry.File? {
      FileReturnedIff(rules, kind, entry, rel, lines, depth, path);
      hide WalkEntry, Shown;
    } else if entry.Dir? {
      var own := Join(rel, entry.name);
      EntriesReturnIff(rules, kind, entry.children, own, NestedLines(rules, entry, own, lines), depth + 1, path);
    }
  }

  lemma {:induction false} EntriesReturnIff(rules: Rules, kind: Kind, entries: seq<Node>, rel: string,
                                            lines: seq<string>, depth: nat, path: string)
    requires WellNamed(entries)
    ensures path in WalkEntries(rules, kind, entries, rel, lines, depth).files <==>
              ShownBelow(rules, kind, entries, rel, lines, depth, path) && WantedBy(rules, kind, path)
    decreases entries, 1
  {
    if entries != [] {
      hide WalkEntry, Shown, ShownBelow, WantedBy;
      var n := |entries| - 1;
      EntriesReturnIff(rules, kind, entries[..n], rel, lines, depth, path);
      ShownBelowStep(rules, kind, entries, rel, lines, depth, path);
      EntryReturnsIff(rules, kind, entries[n], rel, WalkEntries(rules, kind, entries[..n], rel, lines, depth).lines,
        depth, path);
    }
  }

  /** The document walker returns exactly the documents that nothing excludes. */
  lemma DocsReturnIff(rules: Rules, root: Node, rootLines: seq<string>, path: string)
    requires root.Dir? && root.readable && WellNamed(root.children)
    ensures path in WalkDir(rules, Docs, root, "", rootLines, 0).files <==>
              && ShownBelow(rules, Docs, root.children, "", rootLines, 0, path)
              && IsDocPath(path) && (IsDefaultIgnoredPath(path) ==> rules.optsIn(path))
  {
    hide WalkEntries, ShownBelow, IsDocPath, IsDefaultIgnoredPath;
    EntriesReturnIff(rules, Docs, root.children, "", rootLines, 0, path);
  }

  // ---- No path twice --------------------------------------------------------

  /** What is left of a path below an entry when the directory is taken off. */
  lemma RestOfPath(path: string, rel: string, a: string)
    requires Under(path, Join(rel, a))
    ensures var offset := |Join(rel, a)| - |a|;
            offset <= |path| && (path[offset..] == a || a + "/" <= path[offset..])
  {
    var whole := Join(rel, a);
    var offset := |whole| - |a|;
    var dir := whole[..offset];
    assert whole == dir + a;
    if whole != path {
      var tail := path[|whole| + 1..];
      assert path == dir + (a + "/" + tail);
      assert path[offset..] == a + "/" + tail;
    }
  }

  /** One path does not lie under two different entries of a directory. */
  lemma UnderOneEntry(path: string, rel: string, a: string, b: string)
    requires '/' !in a && '/' !in b
    requires Under(path, Join(rel, a)) && Under(path, Join(rel, b))
    ensures a == b
  {
    RestOfPath(path, rel, a);
    RestOfPath(path, rel, b);
    assert |Join(rel, a)| - |a| == |Join(rel, b)| - |b|;
    SameFirstElement(path[|Join(rel, a)| - |a|..], a, b);
  }

  lemma SameFirstElement(rest: string, a: string, b: string)
    requires '/' !in a && '/' !in b
    requires (rest == a || a + "/" <= rest) && (rest == b || b + "/" <= rest)
    ensures a == b
  {
    forall i | 0 <= i < |a| ensures rest[i] == a[i] != '/' { assert a[i] in a; }
    forall i | 0 <= i < |b| ensures rest[i] == b[i] != '/' { assert b[i] in b; }
    assert |a| < |rest| ==> rest[|a|] == '/' by {
      if |a| < |rest| { assert rest[..|a| + 1] == a + "/"; }
    }
    assert |b| < |rest| ==> rest[|b|] == '/' by {
      if |b| < |rest| { assert rest[..|b| + 1] == b + "/"; }
    }
    assert |a| == |b|;
    assert a == rest[..|a|] == b;
  }

  lemma DistinctConcat(xs: seq<string>, ys: seq<string>)
    requires Distinct(xs) && Distinct(ys) && forall x :: !(x in xs && x in ys)
    ensures Distinct(xs + ys)
  {
    forall i, j | 0 <= i < j < |xs + ys| ensures (xs + ys)[i] != (xs + ys)[j] {
      if i < |xs| <= j {
        assert xs[i] in xs && ys[j - |xs|] in ys;
      }
    }
  }

  lemma {:induction false} EntryIsDistinct(rules: Rules, kind: Kind, entry: Node, rel: string, lines: seq<string>,
                                           depth: nat)
    requires Reached(rel, depth) && depth <= MAX_DEPTH
    requires entry.name != "" && '/' !in entry.name && (entry.Dir? ==> WellNamed(entry.children))
    ensures Distinct(WalkEntry(rules, kind, entry, rel, lines, depth).files)
    decreases entry, 1
  {
    hide Enters, Opens;
    var path := Join(rel, entry.name);
    if entry.Dir? && !Hidden(entry.name) && depth + 1 <= MAX_DEPTH {
      JoinIsReached(rel, depth, entry.name);
      EntriesAreDistinct(rules, kind, entry.children, path, NestedLines(rules, entry, path, lines), depth + 1);
    }
  }

  lemma {:induction false} EntriesAreDistinct(rules: Rules, kind: Kind, entries: seq<Node>, rel: string,
                                              lines: seq<string>, depth: nat)
    requires Reached(rel, depth) && depth <= MAX_DEPTH && WellNamed(entries)
    ensures Distinct(WalkEntries(rules, kind, entries, rel, lines, depth).files)
    decreases entries, 1
  {
    if entries != [] {
      var n := |entries| - 1;
      var init, last := entries[..n], entries[n];
      EntriesAreDistinct(rules, kind, init, rel, lines, depth);
      var before := WalkEntries(rules, kind, init, rel, lines, depth);
      EntryIsDistinct(rules, kind, last, rel, before.lines, depth);
      var found := WalkEntry(rules, kind, last, rel, before.lines, depth).files;
      hide WalkEntry, GoodPath, Reached, Under;
      forall path ensures !(path in before.files && path in found) {
        if path in before.files && path in found {
          EntriesReturnTouched(rules, kind, init, rel, lines, depth, path);
          EntryReturnsTouched(rules, kind, last, rel, before.lines, depth, path);
          var k := EntryOf(rules, kind, init, rel, lines, depth, path);
          EntryPathsAreGood(rules, kind, init[k], rel, WalkEntries(rules, kind, init[..k], rel, lines, depth).lines,
            depth, path);
          EntryPathsAreGood(rules, kind, last, rel, before.lines, depth, path);
          UnderOneEntry(path, rel, init[k].name, last.name);
        }
      }
      DistinctConcat(before.files, found);
    }
  }

  /** The document walker returns no path twice. */
  lemma DocPathsAreDistinct(rules: Rules, root: Node, rootLines: seq<string>)
    requires root.Dir? && WellNamed(root.children)
    ensures Distinct(WalkDir(rules, Docs, root, "", rootLines, 0).files)
  {
    hide WalkEntries;
    if root.readable {
      EntriesAreDistinct(rules, Docs, root.children, "", NestedLines(rules, root, "", rootLines), 0);
    }
  }
}
