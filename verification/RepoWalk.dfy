/** The parallel code walk (internal/walker/walker.go): one goroutine for every top-level
    directory, each with its own copy of the root matcher, in any interleaving. */
module RepoWalk {
  import opened Options
  import opened Ordering
  import opened Sensitive
  import opened Walker

  // ---- The walk as a whole --------------------------------------------------

  /** What one top-level entry contributes, seen with the root patterns only. */
  ghost function TopLevel(rules: Rules, entry: Node, rootLines: seq<string>): Walk {
    WalkEntry(rules, Code, entry, "", rootLines, 0)
  }

  /** Top-level entries in listing order. */
  ghost function TopLevels(rules: Rules, entries: seq<Node>, rootLines: seq<string>): Walk {
    if entries == [] then NoWalk(rootLines)
    else
      var n := |entries| - 1;
      TopLevels(rules, entries[..n], rootLines).Then(TopLevel(rules, entries[n], rootLines)).(lines := rootLines)
  }

  // ---- One goroutine, step by step ------------------------------------------

  /** An activation of `walk`: the entries it has still to visit. */
  datatype Frame = Frame(rel: string, depth: nat, todo: seq<Node>)

  /** A goroutine between two steps: its activations, its results and its matcher's lines. */
  datatype Worker = Worker(stack: seq<Frame>, walk: Walk)

  /** `walk` is called on a directory. */
  ghost function Called(rules: Rules, dir: Node, rel: string, depth: nat, w: Worker): Worker
    requires dir.Dir?
  {
    if depth > MAX_DEPTH || !dir.readable then w
    else
      Worker(w.stack + [Frame(rel, depth, dir.children)],
             w.walk.(lines := NestedLines(rules, dir, rel, w.walk.lines)))
  }

  /** One step: the innermost activation visits its next entry, or returns. */
  ghost function Stepped(rules: Rules, w: Worker): Worker
    requires w.stack != []
  {
    var n := |w.stack| - 1;
    var f := w.stack[n];
    if f.todo == [] then w.(stack := w.stack[..n])
    else
      var entry, path, lines := f.todo[0], Join(f.rel, f.todo[0].name), w.walk.lines;
      var rest := w.(stack := w.stack[..n] + [f.(todo := f.todo[1..])]);
      if Hidden(entry.name) || entry.Symlink? then rest
      else if entry.Dir? then
        if Enters(rules, Code, entry.name, path, lines) then Called(rules, entry, path, f.depth + 1, rest) else rest
      else rest.(walk := w.walk.Then(WalkFile(rules, Code, entry, path, lines)))
  }

  /** What the goroutine will have found in the end. */
  ghost function Finish(rules: Rules, w: Worker): Walk
    decreases |w.stack|
  {
    if w.stack == [] then w.walk
    else
      var n := |w.stack| - 1;
      var f := w.stack[n];
      Finish(rules, Worker(w.stack[..n], w.walk.Then(WalkEntries(rules, Code, f.todo, f.rel, w.walk.lines, f.depth))))
  }

  ghost function Started(rules: Rules, dir: Node, rootLines: seq<string>): Worker
    requires dir.Dir?
  {
    Called(rules, dir, dir.name, 1, Worker([], NoWalk(rootLines)))
  }

  lemma ThenIsAssociative(a: Walk, b: Walk, c: Walk)
    ensures a.Then(b).Then(c) == a.Then(b.Then(c))
    ensures NoWalk(a.lines).Then(b) == b && a.Then(NoWalk(a.lines)) == a
  {
  }

  /** The entries of a directory, taken apart at the first one. */
  lemma {:induction false} FirstEntry(rules: Rules, entries: seq<Node>, rel: string, lines: seq<string>, depth: nat)
    requires entries != []
    ensures var first := WalkEntry(rules, Code, entries[0], rel, lines, depth);
            WalkEntries(rules, Code, entries, rel, lines, depth) ==
            first.Then(WalkEntries(rules, Code, entries[1..], rel, first.lines, depth))
    decreases |entries|
  {
    hide WalkEntry;
    var n := |entries| - 1;
    var first := WalkEntry(rules, Code, entries[0], rel, lines, depth);
    if n == 0 {
      assert WalkEntries(rules, Code, entries[..n], rel, lines, depth) == NoWalk(lines);
      assert WalkEntries(rules, Code, entries[1..], rel, first.lines, depth) == NoWalk(first.lines);
      ThenIsAssociative(first, first, first);
      ThenIsAssociative(NoWalk(lines), first, first);
    } else {
      FirstEntry(rules, entries[..n], rel, lines, depth);
      assert entries[..n][1..] == entries[1..][..n - 1];
      var middle := WalkEntries(rules, Code, entries[1..][..n - 1], rel, first.lines, depth);
      var last := WalkEntry(rules, Code, entries[n], rel, middle.lines, depth);
      assert entries[1..][n - 1] == entries[n];
      ThenIsAssociative(first, middle, last);
    }
  }

  /** No step changes what will have been found. */
  lemma {:induction false} StepKeepsFinish(rules: Rules, w: Worker)
    requires w.stack != []
    ensures Finish(rules, Stepped(rules, w)) == Finish(rules, w)
  {
    hide Enters, WalkFile, WalkEntries;
    var n := |w.stack| - 1;
    var f := w.stack[n];
    if f.todo == [] {
      NoEntries(rules, Code, f.rel, w.walk.lines, f.depth);
      ThenIsAssociative(w.walk, w.walk, w.walk);
    } else {
      var entry, path, lines := f.todo[0], Join(f.rel, f.todo[0].name), w.walk.lines;
      var first := WalkEntry(rules, Code, entry, f.rel, lines, f.depth);
      var rest := WalkEntries(rules, Code, f.todo[1..], f.rel, first.lines, f.depth);
      FirstEntry(rules, f.todo, f.rel, lines, f.depth);
      ThenIsAssociative(w.walk, first, rest);
      ThenIsAssociative(w.walk, rest, rest);
      FinishTwo(rules, w.stack[..n], f.(todo := f.todo[1..]), w.walk.Then(first));
      if Stepped(rules, w).stack != w.stack[..n] + [f.(todo := f.todo[1..])] {
        var inner := Frame(path, f.depth + 1, entry.children);
        var own := w.walk.(lines := NestedLines(rules, entry, path, lines));
        assert Stepped(rules, w) == Worker(w.stack[..n] + [f.(todo := f.todo[1..])] + [inner], own);
        FinishTwo(rules, w.stack[..n] + [f.(todo := f.todo[1..])], inner, own);
        assert own.Then(first) == w.walk.Then(first);
      }
    }
  }

  lemma {:induction false} FinishTwo(rules: Rules, stack: seq<Frame>, f: Frame, walk: Walk)
    ensures Finish(rules, Worker(stack + [f], walk)) ==
            Finish(rules, Worker(stack, walk.Then(WalkEntries(rules, Code, f.todo, f.rel, walk.lines, f.depth))))
  {
    hide WalkEntries;
    assert (stack + [f])[..|stack|] == stack;
  }

  /** A goroutine finds what the recursive walk of its directory finds. */
  lemma {:induction false} StartedFinishes(rules: Rules, dir: Node, rootLines: seq<string>)
    requires dir.Dir?
    ensures Finish(rules, Started(rules, dir, rootLines)) == WalkDir(rules, Code, dir, dir.name, rootLines, 1)
  {
    hide WalkEntries;
    var own := NoWalk(NestedLines(rules, dir, dir.name, rootLines));
    FinishTwo(rules, [], Frame(dir.name, 1, dir.children), own);
    var inside := WalkEntries(rules, Code, dir.children, dir.name, own.lines, 1);
    ThenIsAssociative(own, inside, inside);
    assert [] + [Frame(dir.name, 1, dir.children)] == [Frame(dir.name, 1, dir.children)];
  }

  // ---- Every goroutine ends -------------------------------------------------

  function Size(entry: Node): nat
    decreases entry, 0
  {
    if entry.Dir? then 2 + Sizes(entry.children) else 1
  }

  function Sizes(entries: seq<Node>): nat
    decreases entries, 1
  {
    if entries == [] then 0 else Size(entries[0]) + Sizes(entries[1..])
  }

  function Work(stack: seq<Frame>): nat {
    if stack == [] then 0 else Work(stack[..|stack| - 1]) + 1 + Sizes(stack[|stack| - 1].todo)
  }

  lemma {:induction false} WorkOfPush(stack: seq<Frame>, f: Frame)
    ensures Work(stack + [f]) == Work(stack) + 1 + Sizes(f.todo)
  {
    assert (stack + [f])[..|stack|] == stack;
  }

  /** Every step leaves less to do. */
  lemma {:induction false} StepShrinks(rules: Rules, w: Worker)
    requires w.stack != []
    ensures Work(Stepped(rules, w).stack) < Work(w.stack)
  {
    hide Enters, WalkFile, Work;
    var n := |w.stack| - 1;
    var f := w.stack[n];
    assert w.stack == w.stack[..n] + [f];
    WorkOfPush(w.stack[..n], f);
    if f.todo != [] {
      var rest := w.stack[..n] + [f.(todo := f.todo[1..])];
      var inner := Frame(Join(f.rel, f.todo[0].name), f.depth + 1, if f.todo[0].Dir? then f.todo[0].children else []);
      WorkOfPush(w.stack[..n], f.(todo := f.todo[1..]));
      WorkOfPush(rest, inner);
    }
  }

  // ---- All goroutines, in any interleaving ----------------------------------

  /** The goroutines take turns as the schedule says; a turn of one that is done is idle. */
  ghost function Run(rules: Rules, ws: seq<Worker>, schedule: seq<nat>): (r: seq<Worker>)
    ensures |r| == |ws|
    decreases |schedule|
  {
    if schedule == [] then ws
    else
      var i := schedule[0];
      if i < |ws| && ws[i].stack != [] then Run(rules, ws[i := Stepped(rules, ws[i])], schedule[1..])
      else Run(rules, ws, schedule[1..])
  }

  predicate AllDone(ws: seq<Worker>) { forall i :: 0 <= i < |ws| ==> ws[i].stack == [] }

  /** Under every schedule, a goroutine that is done has found what it was going to find. */
  lemma {:induction false} ScheduleDoesNotMatter(rules: Rules, ws: seq<Worker>, schedule: seq<nat>, i: nat)
    requires i < |ws|
    ensures Finish(rules, Run(rules, ws, schedule)[i]) == Finish(rules, ws[i])
    ensures Run(rules, ws, schedule)[i].stack == [] ==> Run(rules, ws, schedule)[i].walk == Finish(rules, ws[i])
    decreases |schedule|
  {
    hide Stepped, Finish;
    if schedule != [] {
      var j := schedule[0];
      if j < |ws| && ws[j].stack != [] {
        StepKeepsFinish(rules, ws[j]);
        ScheduleDoesNotMatter(rules, ws[j := Stepped(rules, ws[j])], schedule[1..], i);
      } else {
        ScheduleDoesNotMatter(rules, ws, schedule[1..], i);
      }
    }
    FinishOfDone(rules, Run(rules, ws, schedule)[i]);
  }

  lemma {:induction false} FinishOfDone(rules: Rules, w: Worker)
    ensures w.stack == [] ==> Finish(rules, w) == w.walk
  {
  }

  // ---- Fan-out and merge ----------------------------------------------------

  ghost predicate FansOut(rules: Rules, entry: Node, rootLines: seq<string>) {
    !Hidden(entry.name) && entry.Dir? && Enters(rules, Code, entry.name, entry.name, rootLines)
  }

  /** The top-level directories that get a goroutine. */
  ghost function ParallelDirs(rules: Rules, entries: seq<Node>, rootLines: seq<string>): (dirs: seq<Node>)
    ensures forall d :: d in dirs ==> d.Dir?
  {
    if entries == [] then []
    else
      var n := |entries| - 1;
      var before := ParallelDirs(rules, entries[..n], rootLines);
      if FansOut(rules, entries[n], rootLines) then before + [entries[n]] else before
  }

  predicate IsInline(entry: Node) { !Hidden(entry.name) && entry.File? && entry.regular }

  /** The top-level regular files. */
  function TopLevelFiles(entries: seq<Node>): (files: seq<Node>)
    ensures forall f :: f in files ==> IsInline(f)
  {
    if entries == [] then []
    else
      var n := |entries| - 1;
      var before := TopLevelFiles(entries[..n]);
      if IsInline(entries[n]) then before + [entries[n]] else before
  }

  /** They are handled in the main goroutine, with the root matcher. */
  ghost function Inline(rules: Rules, files: seq<Node>, rootLines: seq<string>): Walk
    requires forall f :: f in files ==> IsInline(f)
  {
    if files == [] then NoWalk(rootLines)
    else
      var n := |files| - 1;
      assert files[n] in files && IsInline(files[n]);
      Inline(rules, files[..n], rootLines).Then(WalkFile(rules, Code, files[n], files[n].name, rootLines))
  }

  ghost function StartedAll(rules: Rules, dirs: seq<Node>, rootLines: seq<string>): (ws: seq<Worker>)
    requires forall d :: d in dirs ==> d.Dir?
    ensures |ws| == |dirs|
    ensures forall i :: 0 <= i < |dirs| ==> ws[i] == Started(rules, dirs[i], rootLines)
  {
    seq(|dirs|, i requires 0 <= i < |dirs| => Started(rules, dirs[i], rootLines))
  }

  /** The results in the order of the directories, after the inline ones. */
  function Merged(inline: Walk, ws: seq<Worker>): Walk {
    if ws == [] then inline else Merged(inline, ws[..|ws| - 1]).Then(ws[|ws| - 1].walk)
  }

  /** The whole walk under one schedule, before sorting. */
  ghost function Outcome(rules: Rules, entries: seq<Node>, rootLines: seq<string>, schedule: seq<nat>): Walk {
    Merged(Inline(rules, TopLevelFiles(entries), rootLines),
           Run(rules, StartedAll(rules, ParallelDirs(rules, entries, rootLines), rootLines), schedule))
  }

  ghost predicate Completes(rules: Rules, entries: seq<Node>, rootLines: seq<string>, schedule: seq<nat>) {
    AllDone(Run(rules, StartedAll(rules, ParallelDirs(rules, entries, rootLines), rootLines), schedule))
  }

  /** Files and directories in listing order, and files first and then directories. */
  ghost function InParts(rules: Rules, entries: seq<Node>, rootLines: seq<string>): Walk {
    DirWalks(rules, ParallelDirs(rules, entries, rootLines), rootLines,
      Inline(rules, TopLevelFiles(entries), rootLines))
  }

  ghost function DirWalks(rules: Rules, dirs: seq<Node>, rootLines: seq<string>, inline: Walk): Walk
    requires forall d :: d in dirs ==> d.Dir?
  {
    if dirs == [] then inline
    else
      var n := |dirs| - 1;
      assert dirs[n] in dirs;
      DirWalks(rules, dirs[..n], rootLines, inline).Then(WalkDir(rules, Code, dirs[n], dirs[n].name, rootLines, 1))
  }

  ghost predicate SameFiles(a: Walk, b: Walk) {
    multiset(a.files) == multiset(b.files) && multiset(a.touched) == multiset(b.touched)
  }

  /** One more inline file. */
  lemma {:induction false} InlineMore(rules: Rules, dirs: seq<Node>, rootLines: seq<string>, inline: Walk, more: Walk)
    requires forall d :: d in dirs ==> d.Dir?
    ensures SameFiles(DirWalks(rules, dirs, rootLines, inline.Then(more)),
        DirWalks(rules, dirs, rootLines, inline).Then(more))
  {
    hide WalkDir;
    if dirs != [] {
      var n := |dirs| - 1;
      assert dirs[n] in dirs;
      InlineMore(rules, dirs[..n], rootLines, inline, more);
      var last := WalkDir(rules, Code, dirs[n], dirs[n].name, rootLines, 1);
    }
  }

  /** Splitting the listing into files and directories loses nothing. */
  lemma {:induction false} PartsAreWhole(rules: Rules, entries: seq<Node>, rootLines: seq<string>)
    ensures SameFiles(InParts(rules, entries, rootLines), TopLevels(rules, entries, rootLines))
  {
    if entries != [] {
      var n := |entries| - 1;
      var entry := entries[n];
      PartsAreWhole(rules, entries[..n], rootLines);
      var dirs, files := ParallelDirs(rules, entries[..n], rootLines), TopLevelFiles(entries[..n]);
      EntryInParts(rules, entry, rootLines);
      hide WalkFile, WalkDir, WalkEntry, Enters;
      if FansOut(rules, entry, rootLines) {
        assert (dirs + [entry])[..|dirs|] == dirs;
      } else if IsInline(entry) {
        assert (files + [entry])[..|files|] == files;
        InlineMore(rules, dirs, rootLines, Inline(rules, files, rootLines),
          WalkFile(rules, Code, entry, entry.name, rootLines));
      }
    }
  }

  lemma EntryInParts(rules: Rules, entry: Node, rootLines: seq<string>)
    ensures TopLevel(rules, entry, rootLines) ==
              if FansOut(rules, entry, rootLines) then WalkDir(rules, Code, entry, entry.name, rootLines, 1)
              else if IsInline(entry) then WalkFile(rules, Code, entry, entry.name, rootLines)
              else NoWalk(rootLines)
  {
    hide Enters;
  }

  lemma {:induction false} MergedIsInParts(rules: Rules, dirs: seq<Node>, rootLines: seq<string>, inline: Walk,
                                           ws: seq<Worker>)
    requires |ws| == |dirs| && (forall d :: d in dirs ==> d.Dir?) && AllDone(ws)
    requires forall i :: 0 <= i < |ws| ==> Finish(rules, ws[i]) == Finish(rules, Started(rules, dirs[i], rootLines))
    ensures Merged(inline, ws) == DirWalks(rules, dirs, rootLines, inline)
  {
    hide Finish, Started, WalkDir;
    if dirs != [] {
      var n := |dirs| - 1;
      assert dirs[n] in dirs;
      MergedIsInParts(rules, dirs[..n], rootLines, inline, ws[..n]);
      FinishOfDone(rules, ws[n]);
      StartedFinishes(rules, dirs[n], rootLines);
    }
  }

  /** Under every schedule that lets all goroutines finish, the walk opens and returns the same
      files, each as often: those of the top-level entries, walked one after the other. */
  lemma EveryScheduleFindsTheSame(rules: Rules, entries: seq<Node>, rootLines: seq<string>, schedule: seq<nat>)
    requires Completes(rules, entries, rootLines, schedule)
    ensures SameFiles(Outcome(rules, entries, rootLines, schedule), TopLevels(rules, entries, rootLines))
  {
    hide Finish, Started, Run, WalkDir, TopLevels, Inline;
    var dirs := ParallelDirs(rules, entries, rootLines);
    var ws := StartedAll(rules, dirs, rootLines);
    forall i | 0 <= i < |ws| ensures Finish(rules, Run(rules, ws, schedule)[i]) == Finish(rules, ws[i]) {
      ScheduleDoesNotMatter(rules, ws, schedule, i);
    }
    MergedIsInParts(rules, dirs, rootLines, Inline(rules, TopLevelFiles(entries), rootLines), Run(rules, ws, schedule));
    PartsAreWhole(rules, entries, rootLines);
  }

  // ---- The goroutines as objects --------------------------------------------

  class Subtree {
    const matcher: IgnoreMatcher
    var stack: seq<Frame>
    var files: seq<string>
    ghost var touched: seq<string>

    ghost predicate Valid(rules: Rules)
      reads this, matcher, matcher.data
    {
      matcher.Valid() && matcher.engine == rules.engine
    }

    ghost function View(rules: Rules): Worker
      requires Valid(rules)
      reads this, matcher, matcher.data
    {
      Worker(stack, Walk(files, touched, matcher.Lines()))
    }

    /** The main goroutine clones the root matcher and starts the subtree. */
    constructor (rules: Rules, dir: Node, rootMatcher: IgnoreMatcher)
      requires dir.Dir? && rootMatcher.Valid() && rootMatcher.engine == rules.engine
      ensures fresh(matcher) && fresh(matcher.data)
      ensures Valid(rules) && View(rules) == Started(rules, dir, rootMatcher.Lines())
    {
      var own := rootMatcher.Clone();
      matcher := own;
      stack, files, touched := [], [], [];
      new;
      Call(rules, dir, dir.name, 1);
    }

    /** The head of `walk`: the directory is read, its ignore file is added. */
    method Call(rules: Rules, dir: Node, rel: string, depth: nat)
      requires dir.Dir? && Valid(rules)
      modifies this, matcher, matcher.data
      ensures Valid(rules) && (matcher.data == old(matcher.data) || fresh(matcher.data))
      ensures View(rules) == Called(rules, dir, rel, depth, old(View(rules)))
    {
      if depth > MAX_DEPTH || !dir.readable {
        return;
      }
      if rel != "" && dir.gitignore.Some? {
        matcher.AddLines(rules.reroot(dir.gitignore.value, rel));
      }
      stack := stack + [Frame(rel, depth, dir.children)];
    }

    /** One turn of this goroutine. */
    method Step(rules: Rules)
      requires Valid(rules) && stack != []
      modifies this, matcher, matcher.data
      ensures Valid(rules) && (matcher.data == old(matcher.data) || fresh(matcher.data))
      ensures View(rules) == Stepped(rules, old(View(rules)))
    {
      hide Enters, WalkFile;
      var n := |stack| - 1;
      var f := stack[n];
      if f.todo == [] {
        stack := stack[..n];
        return;
      }
      var entry, path := f.todo[0], Join(f.rel, f.todo[0].name);
      stack := stack[..n] + [f.(todo := f.todo[1..])];
      if Hidden(entry.name) || entry.Symlink? {
        return;
      }
      if entry.Dir? {
        var enters := MayEnter(rules, Code, entry.name, path, matcher);
        if enters {
          Call(rules, entry, path, f.depth + 1);
        }
        return;
      }
      var found, more := ProcessFile(rules, Code, entry, path, matcher);
      files, touched := files + found, touched + more;
    }
  }

  /** The first loop of `WalkRepo`: top-level entries are sorted into directories and files. */
  method FanOut(rules: Rules, entries: seq<Node>, rootMatcher: IgnoreMatcher)
    returns (dirs: seq<Node>, files: seq<Node>)
    requires rootMatcher.Valid() && rootMatcher.engine == rules.engine
    modifies rootMatcher`compiled, rootMatcher`compiledLen
    ensures rootMatcher.Valid() && rootMatcher.Lines() == old(rootMatcher.Lines())
    ensures dirs == ParallelDirs(rules, entries, rootMatcher.Lines()) && files == TopLevelFiles(entries)
  {
    hide Enters;
    dirs, files := [], [];
    for i := 0 to |entries|
      invariant rootMatcher.Valid() && rootMatcher.Lines() == old(rootMatcher.Lines())
      invariant dirs == ParallelDirs(rules, entries[..i], rootMatcher.Lines()) && files == TopLevelFiles(entries[..i])
    {
      var entry := entries[i];
      assert entries[..i + 1][..i] == entries[..i];
      if Hidden(entry.name) || entry.Symlink? {
        continue;
      }
      if entry.Dir? {
        var enters := MayEnter(rules, Code, entry.name, entry.name, rootMatcher);
        if enters {
          dirs := dirs + [entry];
        }
        continue;
      }
      if entry.regular {
        files := files + [entry];
      }
    }
    assert entries[..|entries|] == entries;
  }

  method ProcessInline(rules: Rules, entries: seq<Node>, rootMatcher: IgnoreMatcher)
    returns (files: seq<string>, ghost touched: seq<string>)
    requires forall f :: f in entries ==> IsInline(f)
    requires rootMatcher.Valid() && rootMatcher.engine == rules.engine
    modifies rootMatcher`compiled, rootMatcher`compiledLen
    ensures rootMatcher.Valid() && rootMatcher.Lines() == old(rootMatcher.Lines())
    ensures Walk(files, touched, rootMatcher.Lines()) == Inline(rules, entries, rootMatcher.Lines())
  {
    hide WalkFile;
    files, touched := [], [];
    for i := 0 to |entries|
      invariant rootMatcher.Valid() && rootMatcher.Lines() == old(rootMatcher.Lines())
      invariant Walk(files, touched, rootMatcher.Lines()) == Inline(rules, entries[..i], rootMatcher.Lines())
    {
      assert entries[..i + 1][..i] == entries[..i] && entries[i] in entries;
      var found, more := ProcessFile(rules, Code, entries[i], entries[i].name, rootMatcher);
      files, touched := files + found, touched + more;
    }
    assert entries[..|entries|] == entries;
  }

  /** No two goroutines share an object. */
  ghost predicate Apart(rules: Rules, workers: seq<Subtree>, views: seq<Worker>)
    reads set w | w in workers, set w | w in workers :: w.matcher, set w | w in workers :: w.matcher.data
  {
    && |views| == |workers|
    && (forall i :: 0 <= i < |workers| ==> workers[i].Valid(rules) && workers[i].View(rules) == views[i])
    && (forall i, j :: 0 <= i < j < |workers| ==>
          workers[i] != workers[j] && workers[i].matcher != workers[j].matcher
            && workers[i].matcher.data != workers[j].matcher.data)
  }

  function TotalWork(views: seq<Worker>): nat {
    if views == [] then 0 else TotalWork(views[..|views| - 1]) + Work(views[|views| - 1].stack)
  }

  lemma {:induction false} TotalWorkShrinks(views: seq<Worker>, i: nat, w: Worker)
    requires i < |views| && Work(w.stack) < Work(views[i].stack)
    ensures TotalWork(views[i := w]) < TotalWork(views)
  {
    hide Work;
    var n := |views| - 1;
    if i < n {
      TotalWorkShrinks(views[..n], i, w);
      assert views[i := w][..n] == views[..n][i := w];
    } else {
      assert views[i := w][..n] == views[..n];
    }
  }

  /** Schedules that let all goroutines finish exist: serve any that is not done, and sooner or
      later all are. */
  lemma {:induction false} SomeScheduleCompletes(rules: Rules, ws: seq<Worker>) returns (schedule: seq<nat>)
    ensures AllDone(Run(rules, ws, schedule))
    decreases TotalWork(ws)
  {
    hide Stepped, TotalWork;
    if AllDone(ws) {
      schedule := [];
    } else {
      var i :| 0 <= i < |ws| && ws[i].stack != [];
      StepShrinks(rules, ws[i]);
      TotalWorkShrinks(ws, i, Stepped(rules, ws[i]));
      var rest := SomeScheduleCompletes(rules, ws[i := Stepped(rules, ws[i])]);
      schedule := [i] + rest;
      assert schedule[1..] == rest;
    }
  }

  /** A turn of one goroutine leaves the others alone. */
  method TakeTurn(rules: Rules, workers: seq<Subtree>, ghost views: seq<Worker>, i: nat)
    returns (ghost after: seq<Worker>)
    requires Apart(rules, workers, views) && i < |workers| && views[i].stack != []
    modifies workers[i], workers[i].matcher, workers[i].matcher.data
    ensures Apart(rules, workers, after) && after == views[i := Stepped(rules, views[i])]
    ensures forall w :: w in workers ==> w.matcher.data == old(w.matcher.data) || fresh(w.matcher.data)
  {
    hide Stepped;
    workers[i].Step(rules);
    after := views[i := Stepped(rules, views[i])];
  }

  /** The main goroutine starts another one. */
  method Start(rules: Rules, dir: Node, rootMatcher: IgnoreMatcher, workers: seq<Subtree>, ghost views: seq<Worker>)
    returns (more: seq<Subtree>, ghost after: seq<Worker>)
    requires dir.Dir? && rootMatcher.Valid() && rootMatcher.engine == rules.engine && Apart(rules, workers, views)
    ensures |more| == |workers| + 1 && more[..|workers|] == workers
    ensures forall w :: w in more ==> w in workers || (fresh(w) && fresh(w.matcher) && fresh(w.matcher.data))
    ensures Apart(rules, more, after) && after == views + [Started(rules, dir, rootMatcher.Lines())]
  {
    hide Started;
    var w := new Subtree(rules, dir, rootMatcher);
    more, after := workers + [w], views + [w.View(rules)];
    forall i | 0 <= i < |workers| ensures more[i] == workers[i] && workers[i] in workers {}
  }

  lemma ApartStacks(rules: Rules, workers: seq<Subtree>, views: seq<Worker>)
    requires Apart(rules, workers, views)
    ensures |views| == |workers| && forall i :: 0 <= i < |views| ==> workers[i].stack == views[i].stack
  {
  }

  /** Any goroutine that is not done, if there is one. */
  method Turn(rules: Rules, workers: seq<Subtree>, ghost views: seq<Worker>) returns (i: Option<nat>)
    requires Apart(rules, workers, views)
    ensures |views| == |workers|
    ensures if i.Some? then i.value < |views| && views[i.value].stack != [] else AllDone(views)
  {
    ApartStacks(rules, workers, views);
    hide Apart;
    if exists i :: 0 <= i < |workers| && workers[i].stack != [] {
      var at :| 0 <= at < |workers| && workers[at].stack != [];
      return Some(at);
    }
    return None;
  }

  /** Goroutine `i` will find what the walk of directory `i` finds. */
  ghost predicate OnCourse(rules: Rules, dirs: seq<Node>, rootLines: seq<string>, views: seq<Worker>)
    requires forall d :: d in dirs ==> d.Dir?
  {
    && |views| <= |dirs|
    && forall i :: 0 <= i < |views| ==> Finish(rules, views[i]) == Finish(rules, Started(rules, dirs[i], rootLines))
  }

  lemma OnCourseAfterStart(rules: Rules, dirs: seq<Node>, rootLines: seq<string>, views: seq<Worker>)
    requires (forall d :: d in dirs ==> d.Dir?) && OnCourse(rules, dirs, rootLines, views) && |views| < |dirs|
    ensures dirs[|views|] in dirs
        && OnCourse(rules, dirs, rootLines, views + [Started(rules, dirs[|views|], rootLines)])
  {
    hide Finish, Started;
  }

  lemma OnCourseAfterTurn(rules: Rules, dirs: seq<Node>, rootLines: seq<string>, views: seq<Worker>, i: nat)
    requires (forall d :: d in dirs ==> d.Dir?) && OnCourse(rules, dirs, rootLines, views)
    requires i < |views| && views[i].stack != []
    ensures var after := views[i := Stepped(rules, views[i])];
            OnCourse(rules, dirs, rootLines, after) && TotalWork(after) < TotalWork(views)
  {
    hide Finish, Started, Stepped;
    StepKeepsFinish(rules, views[i]);
    StepShrinks(rules, views[i]);
    TotalWorkShrinks(views, i, Stepped(rules, views[i]));
  }

  /** The goroutines take turns in whatever order: as many turns as they get, or all of them. */
  method TakeTurns(rules: Rules, dirs: seq<Node>, ghost lines: seq<string>, workers: seq<Subtree>,
                   ghost views: seq<Worker>,
                   all: bool)
    returns (ghost after: seq<Worker>)
    requires (forall d :: d in dirs ==> d.Dir?) && Apart(rules, workers, views) && OnCourse(rules, dirs, lines, views)
    modifies workers, set w | w in workers :: w.matcher, set w | w in workers :: w.matcher.data
    ensures |after| == |workers| && Apart(rules, workers, after) && OnCourse(rules, dirs, lines, after)
    ensures forall w :: w in workers ==> w.matcher.data == old(w.matcher.data) || fresh(w.matcher.data)
    ensures all ==> AllDone(after)
  {
    after := views;
    hide Stepped, TotalWork, Started, OnCourse, Apart;
    var turn := Turn(rules, workers, after);
    var another := *;
    while turn.Some? && (all || another)
      invariant |after| == |workers| && Apart(rules, workers, after) && OnCourse(rules, dirs, lines, after)
      invariant forall w :: w in workers ==> w.matcher.data == old(w.matcher.data) || fresh(w.matcher.data)
      invariant if turn.Some? then 0 <= turn.value < |after| && after[turn.value].stack != [] else AllDone(after)
      decreases TotalWork(after)
    {
      OnCourseAfterTurn(rules, dirs, lines, after, turn.value);
      assert workers[turn.value] in workers;
      after := TakeTurn(rules, workers, after, turn.value);
      turn := Turn(rules, workers, after);
      another := *;
    }
  }

  /** The goroutines get some turns, and then the main goroutine starts the next one. */
  method TurnsAndStart(rules: Rules, dirs: seq<Node>, ghost lines: seq<string>, rootMatcher: IgnoreMatcher,
                       workers: seq<Subtree>, ghost views: seq<Worker>)
    returns (more: seq<Subtree>, ghost after: seq<Worker>)
    requires (forall d :: d in dirs ==> d.Dir?) && Apart(rules, workers, views) && OnCourse(rules, dirs, lines, views)
    requires |workers| == |views| < |dirs|
    requires rootMatcher.Valid() && rootMatcher.engine == rules.engine && rootMatcher.Lines() == lines
    requires forall w :: w in workers ==> w.matcher != rootMatcher && w.matcher.data != rootMatcher.data
    modifies workers, set w | w in workers :: w.matcher, set w | w in workers :: w.matcher.data
    ensures |more| == |after| == |workers| + 1 && Apart(rules, more, after) && OnCourse(rules, dirs, lines, after)
    ensures forall w :: w in more ==>
              || (w in workers && (w.matcher.data == old(w.matcher.data) || fresh(w.matcher.data)))
              || (fresh(w) && fresh(w.matcher) && fresh(w.matcher.data))
  {
    hide Stepped, TotalWork, Started, OnCourse, Apart;
    after := TakeTurns(rules, dirs, lines, workers, views, false);
    OnCourseAfterStart(rules, dirs, lines, after);
    more, after := Start(rules, dirs[|workers|], rootMatcher, workers, after);
  }

  /** The main goroutine starts one goroutine after the other; between two starts those that
      run take turns, and then all of them run to their end. */
  method RunAll(rules: Rules, dirs: seq<Node>, rootMatcher: IgnoreMatcher)
    returns (workers: seq<Subtree>, ghost views: seq<Worker>)
    requires (forall d :: d in dirs ==> d.Dir?) && rootMatcher.Valid() && rootMatcher.engine == rules.engine
    ensures |workers| == |views| == |dirs| && Apart(rules, workers, views) && AllDone(views)
    ensures OnCourse(rules, dirs, rootMatcher.Lines(), views)
  {
    ghost var lines := rootMatcher.Lines();
    workers, views := [], [];
    assert Apart(rules, workers, views) && OnCourse(rules, dirs, lines, views);
    hide Stepped, TotalWork, Started, OnCourse, Apart;
    for i := 0 to |dirs|
      invariant |workers| == |views| == i && Apart(rules, workers, views) && OnCourse(rules, dirs, lines, views)
      invariant forall w :: w in workers ==> fresh(w) && fresh(w.matcher) && fresh(w.matcher.data)
    {
      workers, views := TurnsAndStart(rules, dirs, lines, rootMatcher, workers, views);
    }
    views := TakeTurns(rules, dirs, lines, workers, views, true);
  }

  /** The results are merged in the order of the directories. */
  method Merge(rules: Rules, inline: seq<string>, ghost inlineWalk: Walk, workers: seq<Subtree>,
               ghost views: seq<Worker>)
    returns (files: seq<string>)
    requires Apart(rules, workers, views) && inlineWalk.files == inline
    ensures files == Merged(inlineWalk, views).files
  {
    files := inline;
    for i := 0 to |workers|
      invariant files == Merged(inlineWalk, views[..i]).files
    {
      assert views[..i + 1][..i] == views[..i];
      files := files + workers[i].files;
    }
    assert views[..|workers|] == views;
  }

  /** `WalkRepo`: whatever turns the goroutines took, the sorted result has the files of the
      top-level entries walked one after the other. */
  method WalkRepo(rules: Rules, root: Node, rootMatcher: IgnoreMatcher)
    returns (files: seq<string>, ghost touched: seq<string>)
    requires root.Dir? && rootMatcher.Valid() && rootMatcher.engine == rules.engine
    modifies rootMatcher`compiled, rootMatcher`compiledLen
    ensures Sorted(files, Leq)
    ensures var lines := old(rootMatcher.Lines());
            SameFiles(Walk(files, touched, lines),
                      if root.readable then TopLevels(rules, root.children, lines) else NoWalk(lines))
  {
    files, touched := [], [];
    if !root.readable {
      return;
    }
    ghost var lines := rootMatcher.Lines();
    var dirs, topFiles := FanOut(rules, root.children, rootMatcher);
    var inline, probed := ProcessInline(rules, topFiles, rootMatcher);
    var workers, views := RunAll(rules, dirs, rootMatcher);
    hide Finish, Started, TopLevels, WalkDir, Inline, ParallelDirs, TopLevelFiles, Merged, Apart;
    ghost var inlineWalk := Walk(inline, probed, lines);
    files := Merge(rules, inline, inlineWalk, workers, views);
    touched := Merged(inlineWalk, views).touched;
    MergedIsInParts(rules, dirs, lines, inlineWalk, views);
    PartsAreWhole(rules, root.children, lines);
    LeqIsTotalPreorder();
    SortSorts(files, Leq);
    files := Sort(files, Leq);
  }

  // ---- The promises about the code walk -------------------------------------

  lemma {:induction false} TopLevelOf(rules: Rules, entries: seq<Node>, lines: seq<string>, path: string)
    returns (k: nat)
    requires path in TopLevels(rules, entries, lines).touched
    ensures k < |entries| && path in TopLevel(rules, entries[k], lines).touched
  {
    hide TopLevel;
    var n := |entries| - 1;
    if path in TopLevels(rules, entries[..n], lines).touched {
      k := TopLevelOf(rules, entries[..n], lines, path);
    } else {
      k := n;
    }
  }

  lemma {:induction false} TopLevelsReturnTouched(rules: Rules, entries: seq<Node>, lines: seq<string>, path: string)
    requires path in TopLevels(rules, entries, lines).files
    ensures path in TopLevels(rules, entries, lines).touched
  {
    hide WalkEntry;
    var n := |entries| - 1;
    if path in TopLevels(rules, entries[..n], lines).files {
      TopLevelsReturnTouched(rules, entries[..n], lines, path);
    } else {
      EntryReturnsTouched(rules, Code, entries[n], "", lines, 0, path);
    }
  }

  /** The code walker opens only good code paths, and returns none that it did not open. */
  lemma CodePathsAreGood(rules: Rules, root: Node, rootLines: seq<string>, path: string)
    requires root.Dir? && WellNamed(root.children)
    ensures var w := TopLevels(rules, root.children, rootLines);
            && (path in w.files ==> path in w.touched)
            && (path in w.touched ==> GoodPath(Code, path))
  {
    hide WalkEntry, GoodPath, TopLevels;
    if path in TopLevels(rules, root.children, rootLines).files {
      TopLevelsReturnTouched(rules, root.children, rootLines, path);
    }
    if path in TopLevels(rules, root.children, rootLines).touched {
      var k := TopLevelOf(rules, root.children, rootLines, path);
      EntryPathsAreGood(rules, Code, root.children[k], "", rootLines, 0, path);
    }
  }

  /** No file is claimed by both walkers, or even opened by both, whatever the tree and the
      ignore files are. */
  lemma WalkersAreDisjoint(rules: Rules, root: Node, codeLines: seq<string>, docLines: seq<string>, path: string)
    requires root.Dir? && WellNamed(root.children)
    ensures var code, docs := TopLevels(rules, root.children, codeLines), WalkDir(rules, Docs, root, "", docLines, 0);
            !(path in code.touched && path in docs.touched) && !(path in code.files && path in docs.files)
  {
    CodePathsAreGood(rules, root, codeLines, path);
    DocPathsAreGood(rules, root, docLines, path);
    hide WalkDir, TopLevels, IsDocPath, MatchesPattern, NamesSecret, Base;
  }

  /** Nothing excludes the file from the code walk, where each top-level entry is visited with
      the root patterns. */
  ghost predicate ShownToCode(rules: Rules, entries: seq<Node>, rootLines: seq<string>, path: string) {
    exists i :: 0 <= i < |entries| && Shown(rules, Code, entries[i], "", rootLines, 0, path)
  }

  /** The code walker returns exactly the other files that nothing excludes. */
  lemma {:induction false} CodeReturnsIff(rules: Rules, entries: seq<Node>, rootLines: seq<string>, path: string)
    requires WellNamed(entries)
    ensures path in TopLevels(rules, entries, rootLines).files <==>
              ShownToCode(rules, entries, rootLines, path) && !IsDocPath(path)
  {
    hide WalkEntry, Shown, IsDocPath;
    if entries != [] {
      var n := |entries| - 1;
      CodeReturnsIff(rules, entries[..n], rootLines, path);
      EntryReturnsIff(rules, Code, entries[n], "", rootLines, 0, path);
      if ShownToCode(rules, entries[..n], rootLines, path) {
        var i :| 0 <= i < n && Shown(rules, Code, entries[..n][i], "", rootLines, 0, path);
        assert Shown(rules, Code, entries[i], "", rootLines, 0, path);
      }
      if ShownToCode(rules, entries, rootLines, path) {
        var i :| 0 <= i < |entries| && Shown(rules, Code, entries[i], "", rootLines, 0, path);
        assert i < n ==> entries[..n][i] == entries[i];
      }
    }
  }

  /** A file that nothing excludes is returned by exactly one walker, default-ignored documents
      without an opt-in aside. */
  lemma ExactlyOneWalker(rules: Rules, root: Node, codeLines: seq<string>, docLines: seq<string>, path: string)
    requires root.Dir? && root.readable && WellNamed(root.children)
    requires ShownToCode(rules, root.children, codeLines, path)
    requires ShownBelow(rules, Docs, root.children, "", docLines, 0, path)
    requires IsDocPath(path) && IsDefaultIgnoredPath(path) ==> rules.optsIn(path)
    ensures path in TopLevels(rules, root.children, codeLines).files <==>
              path !in WalkDir(rules, Docs, root, "", docLines, 0).files
  {
    CodeReturnsIff(rules, root.children, codeLines, path);
    DocsReturnIff(rules, root, docLines, path);
    hide TopLevels, WalkDir, ShownToCode, ShownBelow, IsDocPath, IsDefaultIgnoredPath;
  }

  lemma {:induction false} TopLevelsAreDistinct(rules: Rules, entries: seq<Node>, lines: seq<string>)
    requires WellNamed(entries)
    ensures Distinct(TopLevels(rules, entries, lines).files)
  {
    if entries != [] {
      var n := |entries| - 1;
      var init, last := entries[..n], entries[n];
      TopLevelsAreDistinct(rules, init, lines);
      EntryIsDistinct(rules, Code, last, "", lines, 0);
      var before, found := TopLevels(rules, init, lines).files, TopLevel(rules, last, lines).files;
      hide WalkEntry, GoodPath, Under;
      forall path ensures !(path in before && path in found) {
        if path in before && path in found {
          TopLevelsReturnTouched(rules, init, lines, path);
          EntryReturnsTouched(rules, Code, last, "", lines, 0, path);
          var k := TopLevelOf(rules, init, lines, path);
          EntryPathsAreGood(rules, Code, init[k], "", lines, 0, path);
          EntryPathsAreGood(rules, Code, last, "", lines, 0, path);
          UnderOneEntry(path, "", init[k].name, last.name);
        }
      }
      DistinctConcat(before, found);
    }
  }

  /** Two runs of the walk, under any two schedules that let all goroutines finish and with any
      sorting algorithm, return the same list, in which no path occurs twice. */
  lemma RepoWalkIsUnique(rules: Rules, root: Node, lines: seq<string>, schedule: seq<nat>, schedule': seq<nat>,
                         files: seq<string>, files': seq<string>)
    requires root.Dir? && WellNamed(root.children)
    requires Completes(rules, root.children, lines, schedule) && Completes(rules, root.children, lines, schedule')
    requires Sorted(files, Leq) && multiset(files) == multiset(Outcome(rules, root.children, lines, schedule).files)
    requires Sorted(files', Leq) && multiset(files') == multiset(Outcome(rules, root.children, lines, schedule').files)
    ensures files == files' && Distinct(files)
  {
    hide Completes, Outcome, TopLevels, WellNamed;
    EveryScheduleFindsTheSame(rules, root.children, lines, schedule);
    EveryScheduleFindsTheSame(rules, root.children, lines, schedule');
    TopLevelsAreDistinct(rules, root.children, lines);
    PermutationKeepsDistinct(TopLevels(rules, root.children, lines).files, files);
    forall x, y | x in files && y in files && Leq(x, y) && Leq(y, x) ensures x == y { LeqIsTotal(x, y); }
    SortedIsUnique(files, files', Leq);
  }
}
