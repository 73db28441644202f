/** The `--add`, `--remove` and `--replace` specs of `workspace docs`
    (internal/commands/workspace_docs_spec.go) and the plans they lead to. */
module DocSpec {
  import opened Options
  import opened Ordering
  import opened DocPlan

  /** A parsed spec: a sentinel, a list of literal paths, or a glob (`path.Match`). */
  datatype Spec = New | All | Nothing | Literal(paths: seq<string>) | Glob(matches: string -> bool)

  /** What the spec says about one row. */
  predicate Names(spec: Spec, it: PickerItem) {
    match spec
    case New => it.HasLocal() && !it.indexed
    case All => it.HasLocal()
    case Nothing => false
    case Literal(paths) => it.path in paths
    case Glob(matches) => matches(it.path)
  }

  /** `new` names the local rows that are not indexed, `all` the local rows and `none` no row. */
  lemma NamesAre(it: PickerItem, paths: seq<string>, matches: string -> bool)
    ensures Names(New, it) <==> it.localAbs != "" && !it.indexed
    ensures Names(All, it) <==> it.localAbs != ""
    ensures !Names(Nothing, it)
    ensures Names(Literal(paths), it) <==> it.path in paths
    ensures Names(Glob(matches), it) <==> matches(it.path)
  {
  }

  function Paths(items: seq<PickerItem>): set<string> { set it | it in items :: it.path }

  function NamedPaths(spec: Spec, items: seq<PickerItem>): set<string> {
    set it | it in items && Names(spec, it) :: it.path
  }

  /** The literal paths that no row has, in the order typed. */
  function Unresolved(paths: seq<string>, known: set<string>): seq<string> {
    if paths == [] then []
    else
      var n := |paths| - 1;
      if paths[n] in known then Unresolved(paths[..n], known) else Unresolved(paths[..n], known) + [paths[n]]
  }

  /** Every typed path without a row, as often ... */
  lemma {:induction false} UnresolvedCounts(paths: seq<string>, known: set<string>, p: string)
    ensures multiset(Unresolved(paths, known))[p] == if p in known then 0 else multiset(paths)[p]
  {
    if paths != [] {
      var n := |paths| - 1;
      UnresolvedCounts(paths[..n], known, p);
      assert paths == paths[..n] + [paths[n]];
      AppendCounts(paths[..n], paths[n], p);
      AppendCounts(Unresolved(paths[..n], known), paths[n], p);
    }
  }

  /** ... and in the order it was typed. */
  lemma {:induction false} UnresolvedKeepOrder(first: seq<string>, second: seq<string>, known: set<string>)
    ensures Unresolved(first + second, known) == Unresolved(first, known) + Unresolved(second, known)
  {
    if second == [] {
      assert first + second == first;
    } else {
      var n := |second| - 1;
      assert (first + second)[..|first| + n] == first + second[..n];
      UnresolvedKeepOrder(first, second[..n], known);
    }
  }

  function UnresolvedBy(spec: Spec, items: seq<PickerItem>): seq<string> {
    if spec.Literal? then Unresolved(spec.paths, Paths(items)) else []
  }

  /** The resolvers. */
  method Resolve(spec: Spec, items: seq<PickerItem>) returns (matched: set<string>, unresolved: seq<string>)
    ensures matched == NamedPaths(spec, items)
    ensures unresolved == UnresolvedBy(spec, items)
  {
    matched, unresolved := {}, [];
    if spec.Literal? {
      var index: set<string> := {};
      for i := 0 to |items|
        invariant index == Paths(items[..i])
      {
        assert items[..i + 1] == items[..i] + [items[i]];
        index := index + {items[i].path};
      }
      assert items[..|items|] == items;
      for i := 0 to |spec.paths|
        invariant matched == (set p | p in spec.paths[..i] && p in index)
        invariant unresolved == Unresolved(spec.paths[..i], index)
      {
        var p := spec.paths[i];
        assert spec.paths[..i + 1] == spec.paths[..i] + [p];
        if p in index {
          matched := matched + {p};
        } else {
          unresolved := unresolved + [p];
        }
      }
      assert spec.paths[..|spec.paths|] == spec.paths;
      return;
    }
    for i := 0 to |items|
      invariant matched == NamedPaths(spec, items[..i])
    {
      assert items[..i + 1] == items[..i] + [items[i]];
      if Names(spec, items[i]) {
        matched := matched + {items[i].path};
      }
    }
    assert items[..|items|] == items;
  }

  datatype ApplyResult = ApplyResult(unresolvedAdd: seq<string>, unresolvedRemove: seq<string>,
    unresolvedReplace: seq<string>)

  /** Rows matched by a removal that were never indexed. */
  function NeverIndexed(items: seq<PickerItem>, matched: set<string>): seq<string> {
    if items == [] then []
    else
      var n := |items| - 1;
      if items[n].path in matched && !items[n].indexed then NeverIndexed(items[..n], matched) + [items[n].path]
      else NeverIndexed(items[..n], matched)
  }

  /** They are the matched rows without a document, in row order. */
  lemma {:induction false} NeverIndexedAre(items: seq<PickerItem>, matched: set<string>, p: string)
    ensures p in NeverIndexed(items, matched) <==>
              p in matched && exists it :: it in items && it.path == p && !it.indexed
  {
    if items != [] {
      var n := |items| - 1;
      NeverIndexedAre(items[..n], matched, p);
      assert items == items[..n] + [items[n]];
    }
  }

  lemma {:induction false} NeverIndexedKeepOrder(first: seq<PickerItem>, second: seq<PickerItem>, matched: set<string>)
    ensures NeverIndexed(first + second, matched) == NeverIndexed(first, matched) + NeverIndexed(second, matched)
  {
    if second == [] {
      assert first + second == first;
    } else {
      var n := |second| - 1;
      assert (first + second)[..|first| + n] == first + second[..n];
      NeverIndexedKeepOrder(first, second[..n], matched);
    }
  }

  function MatchedBy(spec: Option<Spec>, items: seq<PickerItem>): set<string> {
    if spec.Some? then NamedPaths(spec.value, items) else {}
  }

  /** The final selection of one row. */
  function Selection(it: PickerItem, items: seq<PickerItem>, add: Option<Spec>, remove: Option<Spec>,
                     replace: Option<Spec>): bool {
    if replace.Some? then it.path in MatchedBy(replace, items)
    else if it.indexed then it.path !in MatchedBy(remove, items)
    else it.path in MatchedBy(add, items)
  }

  /** REPLACE mode: the spec defines the selection. */
  method SelectExactly(rows: array<PickerItem>, matched: set<string>)
    modifies rows
    ensures forall i :: 0 <= i < rows.Length ==> rows[i] == old(rows[i]).(selected := old(rows[i]).path in matched)
  {
    for i := 0 to rows.Length
      invariant forall j :: 0 <= j < i ==> rows[j] == old(rows[j]).(selected := old(rows[j]).path in matched)
      invariant forall j :: i <= j < rows.Length ==> rows[j] == old(rows[j])
    {
      rows[i] := rows[i].(selected := rows[i].path in matched);
    }
  }

  /** ADD/REMOVE mode starts from what is indexed. */
  method SelectIndexed(rows: array<PickerItem>)
    modifies rows
    ensures forall i :: 0 <= i < rows.Length ==> rows[i] == old(rows[i]).(selected := old(rows[i]).indexed)
  {
    for i := 0 to rows.Length
      invariant forall j :: 0 <= j < i ==> rows[j] == old(rows[j]).(selected := old(rows[j]).indexed)
      invariant forall j :: i <= j < rows.Length ==> rows[j] == old(rows[j])
    {
      rows[i] := rows[i].(selected := rows[i].indexed);
    }
  }

  method AddMatched(rows: array<PickerItem>, matched: set<string>)
    modifies rows
    ensures forall i :: 0 <= i < rows.Length ==>
              rows[i] == old(rows[i]).(selected := old(rows[i]).selected || old(rows[i]).path in matched)
  {
    for i := 0 to rows.Length
      invariant forall j :: 0 <= j < i ==>
                  rows[j] == old(rows[j]).(selected := old(rows[j]).selected || old(rows[j]).path in matched)
      invariant forall j :: i <= j < rows.Length ==> rows[j] == old(rows[j])
    {
      if rows[i].path in matched {
        rows[i] := rows[i].(selected := true);
      }
    }
  }

  /** Rows that are not indexed are only reported. */
  method RemoveMatched(rows: array<PickerItem>, matched: set<string>) returns (neverIndexed: seq<string>)
    modifies rows
    ensures forall i :: 0 <= i < rows.Length ==>
              var it := old(rows[i]);
              rows[i] == it.(selected := it.selected && !(it.path in matched && it.indexed))
    ensures neverIndexed == NeverIndexed(old(rows[..]), matched)
  {
    ghost var before := rows[..];
    neverIndexed := [];
    for i := 0 to rows.Length
      invariant forall j :: 0 <= j < i ==>
                  rows[j] == before[j].(selected := before[j].selected
                    && !(before[j].path in matched && before[j].indexed))
      invariant forall j :: i <= j < rows.Length ==> rows[j] == before[j]
      invariant neverIndexed == NeverIndexed(before[..i], matched)
    {
      assert before[..i + 1][..i] == before[..i];
      if rows[i].path in matched {
        if !rows[i].indexed {
          neverIndexed := neverIndexed + [rows[i].path];
          continue;
        }
        rows[i] := rows[i].(selected := false);
      }
    }
    assert before[..|before|] == before;
  }

  /** `applySpecsToItems`: works on a copy of the rows. */
  method ApplySpecsToItems(items: seq<PickerItem>, add: Option<Spec>, remove: Option<Spec>, replace: Option<Spec>)
    returns (res: ApplyResult, out: array<PickerItem>)
    ensures fresh(out) && out.Length == |items|
    ensures forall i :: 0 <= i < |items| ==>
              out[i] == items[i].(selected := Selection(items[i], items, add, remove, replace))
    ensures res == Reported(items, add, remove, replace)
  {
    hide Unresolved, NeverIndexed, NamedPaths, Paths;
    out := new PickerItem[|items|](i requires 0 <= i < |items| => items[i]);
    assert out[..] == items;
    res := ApplyResult([], [], []);
    if replace.Some? {
      var matched, unresolved := Resolve(replace.value, out[..]);
      res := res.(unresolvedReplace := unresolved);
      SelectExactly(out, matched);
      return;
    }
    SelectIndexed(out);
    if add.Some? {
      ResolveIgnoresSelection(add.value, items, out[..]);
      var matched, unresolved := Resolve(add.value, out[..]);
      res := res.(unresolvedAdd := unresolved);
      AddMatched(out, matched);
    }
    if remove.Some? {
      ResolveIgnoresSelection(remove.value, items, out[..]);
      var matched, unresolved := Resolve(remove.value, out[..]);
      NeverIndexedIgnoresSelection(items, out[..], matched);
      var neverIndexed := RemoveMatched(out, matched);
      res := res.(unresolvedRemove := unresolved + neverIndexed);
    }
  }

  /** What the caller is told about paths that matched nothing. */
  function Reported(items: seq<PickerItem>, add: Option<Spec>, remove: Option<Spec>,
                    replace: Option<Spec>): ApplyResult {
    if replace.Some? then ApplyResult([], [], UnresolvedBy(replace.value, items))
    else ApplyResult(
      if add.Some? then UnresolvedBy(add.value, items) else [],
      if remove.Some? then
        UnresolvedBy(remove.value, items) + NeverIndexed(items, NamedPaths(remove.value, items))
      else [],
      [])
  }

  lemma {:induction false} NeverIndexedIgnoresSelection(items: seq<PickerItem>, rows: seq<PickerItem>,
                                                        matched: set<string>)
    requires |items| == |rows| && forall i :: 0 <= i < |items| ==> rows[i] == items[i].(selected := rows[i].selected)
    ensures NeverIndexed(rows, matched) == NeverIndexed(items, matched)
  {
    if items != [] {
      NeverIndexedIgnoresSelection(items[..|items| - 1], rows[..|items| - 1], matched);
    }
  }

  /** A spec looks at paths and at what exists where, never at the selection. */
  lemma ResolveIgnoresSelection(spec: Spec, items: seq<PickerItem>, rows: seq<PickerItem>)
    requires |items| == |rows| && forall i :: 0 <= i < |items| ==> rows[i] == items[i].(selected := rows[i].selected)
    ensures NamedPaths(spec, rows) == NamedPaths(spec, items) && UnresolvedBy(spec, rows) == UnresolvedBy(spec, items)
  {
    hide Unresolved;
    forall p ensures p in NamedPaths(spec, rows) <==> p in NamedPaths(spec, items) {
      if p in NamedPaths(spec, rows) {
        var i :| 0 <= i < |rows| && rows[i].path == p && Names(spec, rows[i]);
        assert items[i] in items && Names(spec, items[i]);
      }
      if p in NamedPaths(spec, items) {
        var i :| 0 <= i < |items| && items[i].path == p && Names(spec, items[i]);
        assert rows[i] in rows && Names(spec, rows[i]);
      }
    }
    forall p ensures p in Paths(rows) <==> p in Paths(items) {
      if p in Paths(rows) {
        var i :| 0 <= i < |rows| && rows[i].path == p;
        assert items[i] in items;
      }
      if p in Paths(items) {
        var i :| 0 <= i < |items| && items[i].path == p;
        assert rows[i] in rows;
      }
    }
    assert Paths(rows) == Paths(items);
  }

  // ---- The plans ------------------------------------------------------------

  lemma NamedByPath(spec: Spec, items: seq<PickerItem>, it: PickerItem)
    requires StrictlySorted(items) && it in items
    ensures it.path in NamedPaths(spec, items) <==> Names(spec, it)
  {
    if it.path in NamedPaths(spec, items) {
      var other :| other in items && Names(spec, other) && other.path == it.path;
      var i, j :| 0 <= i < |items| && 0 <= j < |items| && items[i] == it && items[j] == other;
    }
  }

  /** On merged rows, row by row: indexed rows stay unless removed, others join if added. */
  lemma SelectionIsPointwise(it: PickerItem, items: seq<PickerItem>, add: Option<Spec>, remove: Option<Spec>)
    requires StrictlySorted(items) && it in items
    ensures Selection(it, items, add, remove, None) <==>
              if it.indexed then !(remove.Some? && Names(remove.value, it)) else add.Some? && Names(add.value, it)
    ensures forall spec :: Selection(it, items, add, remove, Some(spec)) <==> Names(spec, it)
  {
    forall spec ensures it.path in NamedPaths(spec, items) <==> Names(spec, it) { NamedByPath(spec, items, it); }
    if add.Some? { NamedByPath(add.value, items, it); }
    if remove.Some? { NamedByPath(remove.value, items, it); }
  }

  /** On merged rows `--replace none` deletes every indexed row and touches nothing else, and
      `--replace all` deletes exactly the rows that only the server has. */
  lemma ReplacePlans(it: PickerItem, items: seq<PickerItem>, local: seq<DocFile>, server: seq<IndexedDocument>,
                     cache: map<string, CachedDoc>)
    requires IsMerge(items, local, server) && it in items && IsWalk(local)
    ensures BucketOf(it.(selected := Selection(it, items, None, None, Some(Nothing))), cache) ==
              if it.indexed then Deletion else NoEffect
    ensures (BucketOf(it.(selected := Selection(it, items, None, None, Some(All))), cache) == Deletion)
            == FindLocal(local, it.path).None?
  {
    NamedByPath(Nothing, items, it);
    NamedByPath(All, items, it);
  }
}
