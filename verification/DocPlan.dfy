/** How `browzer sync` decides what to do with each document: the merge of the
    local walk with the server listing, the selection pass and the delta plan
    (internal/commands/workspace_docs.go, workspace_sync.go), and the older
    cache-only delta (internal/cache/docs_cache.go). */
module DocPlan {
  import opened Options
  import opened Ordering

  datatype DocFile = DocFile(path: string, abs: string, sha: string, size: int)

  datatype IndexedDocument = IndexedDocument(id: string, path: string, size: int, chunks: int, status: string)

  datatype CachedDoc = CachedDoc(sha: string, id: string, size: int)

  datatype PickerItem = PickerItem(
    path: string, localHash: string, localSize: int, localAbs: string,
    serverId: string, serverChunks: int, serverSize: int, serverStatus: string,
    indexed: bool, selected: bool)
  {
    predicate HasLocal() { localAbs != "" }
  }

  // ---- Merge ----------------------------------------------------------------

  /** The entry a Go map keeps after inserting `local` in order: the last one wins. */
  function FindLocal(local: seq<DocFile>, p: string): (r: Option<DocFile>)
    ensures r.Some? ==> r.value in local && r.value.path == p
    ensures r.None? ==> forall f :: f in local ==> f.path != p
  {
    if local == [] then None
    else
      var n := |local| - 1;
      assert local == local[..n] + [local[n]];
      if local[n].path == p then Some(local[n]) else FindLocal(local[..n], p)
  }

  function FindServer(server: seq<IndexedDocument>, p: string): (r: Option<IndexedDocument>)
    ensures r.Some? ==> r.value in server && r.value.path == p
    ensures r.None? ==> forall d :: d in server ==> d.path != p
  {
    if server == [] then None
    else
      var n := |server| - 1;
      assert server == server[..n] + [server[n]];
      if server[n].path == p then Some(server[n]) else FindServer(server[..n], p)
  }

  function LocalRow(f: DocFile): PickerItem {
    PickerItem(f.path, f.sha, f.size, f.abs, "", 0, 0, "", false, false)
  }

  function GhostRow(p: string): PickerItem {
    PickerItem(p, "", 0, "", "", 0, 0, "", false, false)
  }

  function WithServer(it: PickerItem, d: IndexedDocument): PickerItem {
    it.(serverId := d.id, serverChunks := d.chunks, serverSize := d.size, serverStatus := d.status,
        indexed := true, selected := true)
  }

  /** The row for path `p`: local facts from the walk, server facts from the listing. */
  function MergedRow(p: string, local: seq<DocFile>, server: seq<IndexedDocument>): PickerItem {
    var l, s := FindLocal(local, p), FindServer(server, p);
    var row := if l.Some? then LocalRow(l.value) else GhostRow(p);
    if s.Some? then WithServer(row, s.value) else row
  }

  predicate Known(p: string, local: seq<DocFile>, server: seq<IndexedDocument>) {
    FindLocal(local, p).Some? || FindServer(server, p).Some?
  }

  ghost predicate PlanHas(rows: seq<PickerItem>, p: string) {
    exists it :: it in rows && it.path == p
  }

  ghost predicate WalkHas(files: seq<DocFile>, p: string) {
    exists f :: f in files && f.path == p
  }

  ghost predicate Lists(listing: seq<IndexedDocument>, p: string) {
    exists d :: d in listing && d.path == p
  }

  ghost predicate StrictlySorted(items: seq<PickerItem>) {
    forall i, j :: 0 <= i < j < |items| ==> Less(items[i].path, items[j].path)
  }

  /** `out` holds exactly one row per known path, in path order. */
  ghost predicate IsMerge(out: seq<PickerItem>, local: seq<DocFile>, server: seq<IndexedDocument>) {
    && StrictlySorted(out)
    && (forall it :: it in out ==> Known(it.path, local, server) && it == MergedRow(it.path, local, server))
    && (forall p :: Known(p, local, server) ==> MergedRow(p, local, server) in out)
  }

  predicate PathLeq(x: PickerItem, y: PickerItem) { Leq(x.path, y.path) }

  lemma PathLeqIsTotalPreorder()
    ensures TotalPreorder(PathLeq)
  {
    LeqIsTotalPreorder();
  }

  /** The result of the merge does not depend on the iteration order of the Go map. */
  lemma MergeIsUnique(out1: seq<PickerItem>, out2: seq<PickerItem>, local: seq<DocFile>, server: seq<IndexedDocument>)
    requires IsMerge(out1, local, server) && IsMerge(out2, local, server)
    ensures out1 == out2
  {
    hide MergedRow, Known;
    SameElementsArePermutation(out1, out2);
    forall i, j | 0 <= i < j < |out1| ensures PathLeq(out1[i], out1[j]) { LeqIsTotal(out1[i].path, out1[j].path); }
    forall i, j | 0 <= i < j < |out2| ensures PathLeq(out2[i], out2[j]) { LeqIsTotal(out2[i].path, out2[j].path); }
    forall x, y | x in out1 && y in out1 && PathLeq(x, y) && PathLeq(y, x) ensures x == y {
      LeqIsTotal(x.path, y.path);
    }
    SortedIsUnique(out1, out2, PathLeq);
  }

  /** The map being filled by the two loops of the merge. */
  ghost predicate Merging(byPath: map<string, PickerItem>, local: seq<DocFile>, server: seq<IndexedDocument>) {
    && (forall p :: p in byPath <==> Known(p, local, server))
    && (forall p :: p in byPath ==> byPath[p] == MergedRow(p, local, server) && byPath[p].path == p)
  }

  lemma MergingLocal(byPath: map<string, PickerItem>, local: seq<DocFile>, f: DocFile)
    requires Merging(byPath, local, [])
    ensures Merging(byPath[f.path := LocalRow(f)], local + [f], [])
  {
    assert (local + [f])[..|local|] == local;
  }

  lemma MergingServer(byPath: map<string, PickerItem>, local: seq<DocFile>, server: seq<IndexedDocument>,
                      d: IndexedDocument)
    requires Merging(byPath, local, server)
    ensures var item := if d.path in byPath then byPath[d.path] else GhostRow(d.path);
            Merging(byPath[d.path := WithServer(item, d)], local, server + [d])
  {
    assert (server + [d])[..|server|] == server;
  }

  /** The rows of the map in path order, whatever order the map yields them in. */
  method RowsByPath(byPath: map<string, PickerItem>) returns (out: seq<PickerItem>)
    requires forall p :: p in byPath ==> byPath[p].path == p
    ensures StrictlySorted(out)
    ensures forall it :: it in out <==> it.path in byPath && it == byPath[it.path]
  {
    out := [];
    var rest := byPath.Keys;
    while rest != {}
      invariant rest <= byPath.Keys
      invariant forall it :: it in out <==> it.path in byPath.Keys - rest && it == byPath[it.path]
      invariant Distinct(out)
    {
      var p :| p in rest;
      out := out + [byPath[p]];
      rest := rest - {p};
    }
    ghost var rows := out;
    out := Sort(out, PathLeq);
    PathLeqIsTotalPreorder();
    SortSorts(rows, PathLeq);
    PermutationKeepsDistinct(rows, out);
    forall it ensures it in out <==> it in rows { assert it in multiset(out) <==> it in multiset(rows); }
  }

  /** Field by field: the local facts of a row are those of the last walked file of its path, the
      server facts those of the last listed document; an indexed row starts out selected. */
  ghost predicate RowHolds(it: PickerItem, local: seq<DocFile>, server: seq<IndexedDocument>) {
    && (forall i :: 0 <= i < |local| && local[i].path == it.path && !WalkHas(local[i + 1..], it.path) ==>
          && it.localHash == local[i].sha && it.localSize == local[i].size && it.localAbs == local[i].abs)
    && (!WalkHas(local, it.path) ==> it.localHash == it.localAbs == "" && it.localSize == 0)
    && (forall i :: 0 <= i < |server| && server[i].path == it.path && !Lists(server[i + 1..], it.path) ==>
          && it.serverId == server[i].id && it.serverChunks == server[i].chunks
          && it.serverSize == server[i].size && it.serverStatus == server[i].status)
    && (!Lists(server, it.path) ==> it.serverId == it.serverStatus == "" && it.serverChunks == it.serverSize == 0)
    && (it.indexed <==> Lists(server, it.path))
    && it.selected == it.indexed
  }

  lemma {:induction false} FindLocalIsLast(local: seq<DocFile>, i: nat)
    requires i < |local| && !WalkHas(local[i + 1..], local[i].path)
    ensures FindLocal(local, local[i].path) == Some(local[i])
  {
    var n := |local| - 1;
    if i < n {
      assert local[n] in local[i + 1..];
      assert local[i + 1..] == local[..n][i + 1..] + [local[n]];
      FindLocalIsLast(local[..n], i);
    }
  }

  lemma {:induction false} FindServerIsLast(server: seq<IndexedDocument>, i: nat)
    requires i < |server| && !Lists(server[i + 1..], server[i].path)
    ensures FindServer(server, server[i].path) == Some(server[i])
  {
    var n := |server| - 1;
    if i < n {
      assert server[n] in server[i + 1..];
      assert server[i + 1..] == server[..n][i + 1..] + [server[n]];
      FindServerIsLast(server[..n], i);
    }
  }

  lemma MergedRowHolds(p: string, local: seq<DocFile>, server: seq<IndexedDocument>)
    ensures MergedRow(p, local, server).path == p
    ensures RowHolds(MergedRow(p, local, server), local, server)
    ensures Known(p, local, server) <==> WalkHas(local, p) || Lists(server, p)
  {
    forall i: nat | i < |local| && local[i].path == p && !WalkHas(local[i + 1..], p)
      ensures FindLocal(local, p) == Some(local[i])
    {
      FindLocalIsLast(local, i);
    }
    forall i: nat | i < |server| && server[i].path == p && !Lists(server[i + 1..], p)
      ensures FindServer(server, p) == Some(server[i])
    {
      FindServerIsLast(server, i);
    }
    hide FindLocal, FindServer;
  }

  /** A merge in the caller's terms: one row for each path of the walk or the listing, in path order. */
  lemma MergeHolds(out: seq<PickerItem>, local: seq<DocFile>, server: seq<IndexedDocument>)
    requires IsMerge(out, local, server)
    ensures forall it :: it in out ==> RowHolds(it, local, server)
    ensures forall p :: PlanHas(out, p) <==> WalkHas(local, p) || Lists(server, p)
  {
    hide RowHolds, MergedRow, Known;
    forall p ensures PlanHas(out, p) <==> WalkHas(local, p) || Lists(server, p)
             ensures MergedRow(p, local, server).path == p
             ensures RowHolds(MergedRow(p, local, server), local, server)
    {
      MergedRowHolds(p, local, server);
    }
  }

  /** `mergeDocItems`. */
  method MergeDocItems(local: seq<DocFile>, server: seq<IndexedDocument>) returns (out: seq<PickerItem>)
    ensures IsMerge(out, local, server)
    ensures forall it :: it in out ==> RowHolds(it, local, server)
    ensures forall p :: PlanHas(out, p) <==> WalkHas(local, p) || Lists(server, p)
  {
    var byPath: map<string, PickerItem> := map[];
    assert Merging(byPath, [], []);
    hide Merging;
    for n := 0 to |local|
      invariant Merging(byPath, local[..n], [])
    {
      assert local[..n + 1] == local[..n] + [local[n]];
      MergingLocal(byPath, local[..n], local[n]);
      byPath := byPath[local[n].path := LocalRow(local[n])];
    }
    assert local[..|local|] == local;
    for n := 0 to |server|
      invariant Merging(byPath, local, server[..n])
    {
      assert server[..n + 1] == server[..n] + [server[n]];
      MergingServer(byPath, local, server[..n], server[n]);
      var d := server[n];
      var item := if d.path in byPath then byPath[d.path] else GhostRow(d.path);
      byPath := byPath[d.path := WithServer(item, d)];
    }
    assert server[..|server|] == server;
    MergingRows(byPath, local, server);
    out := RowsByPath(byPath);
    RowsAreMerge(out, byPath, local, server);
    hide IsMerge;
    MergeHolds(out, local, server);
  }

  lemma MergingRows(byPath: map<string, PickerItem>, local: seq<DocFile>, server: seq<IndexedDocument>)
    requires Merging(byPath, local, server)
    ensures forall p :: p in byPath ==> byPath[p].path == p
  {
  }

  lemma RowsAreMerge(out: seq<PickerItem>, byPath: map<string, PickerItem>, local: seq<DocFile>,
                     server: seq<IndexedDocument>)
    requires Merging(byPath, local, server) && StrictlySorted(out)
    requires forall it :: it in out <==> it.path in byPath && it == byPath[it.path]
    ensures IsMerge(out, local, server)
  {
    hide MergedRow, Known, StrictlySorted;
  }

  // ---- Selection ------------------------------------------------------------

  /** The sync reconciler's intent for one row. */
  function SelectedForSync(it: PickerItem): PickerItem {
    if it.indexed && !it.HasLocal() then it.(selected := false)
    else if !it.indexed && it.HasLocal() then it.(selected := true)
    else it
  }

  /** `applySyncSelection`: adjusts the rows in place. */
  method ApplySyncSelection(items: array<PickerItem>)
    modifies items
    ensures forall i :: 0 <= i < items.Length ==> items[i] == SelectedForSync(old(items[i]))
    ensures forall i :: 0 <= i < items.Length ==>
              var it, onDisk := old(items[i]), old(items[i]).localAbs != "";
              items[i] == it.(selected := if it.indexed == onDisk then it.selected else onDisk)
  {
    for i := 0 to items.Length
      invariant forall k :: 0 <= k < i ==> items[k] == SelectedForSync(old(items[k]))
      invariant forall k :: i <= k < items.Length ==> items[k] == old(items[k])
    {
      if items[i].indexed && !items[i].HasLocal() {
        items[i] := items[i].(selected := false);
      } else if !items[i].indexed && items[i].HasLocal() {
        items[i] := items[i].(selected := true);
      }
    }
  }

  /** On merged rows the pass selects exactly the rows whose file exists locally. */
  lemma SelectionMirrorsDisk(p: string, local: seq<DocFile>, server: seq<IndexedDocument>)
    requires Known(p, local, server)
    requires forall f :: f in local ==> f.abs != ""
    ensures SelectedForSync(MergedRow(p, local, server)).selected <==> FindLocal(local, p).Some?
  {
  }

  // ---- Delta plan -----------------------------------------------------------

  datatype Bucket = Insertion | ReUpload | Deletion | Keep | NoEffect

  function BucketOf(it: PickerItem, cache: map<string, CachedDoc>): Bucket {
    if !it.selected then (if it.indexed then Deletion else NoEffect)
    else if !it.indexed then (if it.HasLocal() then Insertion else NoEffect)
    else if !it.HasLocal() then Keep
    else if it.path in cache && cache[it.path].sha == it.localHash then Keep
    else ReUpload
  }

  /** The rows of one bucket, in row order. */
  function Pick(items: seq<PickerItem>, cache: map<string, CachedDoc>, b: Bucket): seq<PickerItem> {
    if items == [] then []
    else
      var n := |items| - 1;
      Pick(items[..n], cache, b) + if BucketOf(items[n], cache) == b then [items[n]] else []
  }

  lemma {:induction false} PickHas(items: seq<PickerItem>, cache: map<string, CachedDoc>, b: Bucket, it: PickerItem)
    ensures it in Pick(items, cache, b) <==> it in items && BucketOf(it, cache) == b
  {
    if items != [] {
      var n := |items| - 1;
      PickHas(items[..n], cache, b, it);
      assert items == items[..n] + [items[n]];
    }
  }

  lemma PickNothing(cache: map<string, CachedDoc>, b: Bucket)
    ensures Pick([], cache, b) == []
  {
  }

  datatype Plan = Plan(toInsert: seq<PickerItem>, toReUpload: seq<PickerItem>,
                       toDelete: seq<PickerItem>, toKeep: seq<PickerItem>)

  function PlanOf(items: seq<PickerItem>, cache: map<string, CachedDoc>): Plan {
    Plan(Pick(items, cache, Insertion), Pick(items, cache, ReUpload),
         Pick(items, cache, Deletion), Pick(items, cache, Keep))
  }

  lemma PlanStep(items: seq<PickerItem>, n: nat, cache: map<string, CachedDoc>, b: Bucket)
    requires n < |items|
    ensures Pick(items[..n + 1], cache, b)
            == Pick(items[..n], cache, b) + if BucketOf(items[n], cache) == b then [items[n]] else []
  {
    assert items[..n + 1][..n] == items[..n];
  }

  /** Which rows each slice holds, by their two flags, their local file and their cached hash. */
  ghost predicate SortsRow(plan: Plan, items: seq<PickerItem>, cache: map<string, CachedDoc>, it: PickerItem) {
    && (it in plan.toInsert <==> it in items && it.selected && !it.indexed && it.localAbs != "")
    && (it in plan.toReUpload <==>
          && it in items && it.selected && it.indexed && it.localAbs != ""
          && !(it.path in cache && cache[it.path].sha == it.localHash))
    && (it in plan.toDelete <==> it in items && !it.selected && it.indexed)
    && (it in plan.toKeep <==>
          && it in items && it.selected && it.indexed
          && (it.localAbs == "" || (it.path in cache && cache[it.path].sha == it.localHash)))
  }

  lemma PlanSortsRow(items: seq<PickerItem>, cache: map<string, CachedDoc>, it: PickerItem)
    ensures SortsRow(PlanOf(items, cache), items, cache, it)
  {
    hide Pick;
    PickHas(items, cache, Insertion, it);
    PickHas(items, cache, ReUpload, it);
    PickHas(items, cache, Deletion, it);
    PickHas(items, cache, Keep, it);
  }

  /** `computeDocDelta`. */
  method ComputeDocDelta(items: seq<PickerItem>, cache: map<string, CachedDoc>) returns (plan: Plan)
    ensures plan == PlanOf(items, cache)
    ensures forall it :: SortsRow(plan, items, cache, it)
  {
    hide Pick, SortsRow;
    PickNothing(cache, Insertion);
    PickNothing(cache, ReUpload);
    PickNothing(cache, Deletion);
    PickNothing(cache, Keep);
    var ins: seq<PickerItem>, re: seq<PickerItem>, del: seq<PickerItem>, keep: seq<PickerItem> := [], [], [], [];
    for n := 0 to |items|
      invariant Plan(ins, re, del, keep) == PlanOf(items[..n], cache)
    {
      PlanStep(items, n, cache, Insertion);
      PlanStep(items, n, cache, ReUpload);
      PlanStep(items, n, cache, Deletion);
      PlanStep(items, n, cache, Keep);
      var it := items[n];
      if !it.selected {
        if it.indexed {
          del := del + [it];
        }
      } else if !it.indexed {
        if it.HasLocal() {
          ins := ins + [it];
        }
      } else {
        if !it.HasLocal() {
          keep := keep + [it];
          continue;
        }
        if it.path in cache && cache[it.path].sha == it.localHash {
          keep := keep + [it];
        } else {
          re := re + [it];
        }
      }
    }
    assert items[..|items|] == items;
    plan := Plan(ins, re, del, keep);
    forall it ensures SortsRow(plan, items, cache, it) { PlanSortsRow(items, cache, it); }
  }

  /** Each slice keeps the order of the rows. */
  lemma {:induction false} PickKeepsOrder(first: seq<PickerItem>, second: seq<PickerItem>,
                                          cache: map<string, CachedDoc>, b: Bucket)
    ensures Pick(first + second, cache, b) == Pick(first, cache, b) + Pick(second, cache, b)
  {
    if second == [] {
      assert first + second == first;
    } else {
      var n := |second| - 1;
      assert (first + second)[..|first| + n] == first + second[..n];
      PickKeepsOrder(first, second[..n], cache, b);
      hide BucketOf;
    }
  }

  /** A row lands in the slice of its bucket, as often as it occurs, and in no other slice. */
  lemma {:induction false} PlanPartitions(items: seq<PickerItem>, cache: map<string, CachedDoc>, b: Bucket,
                                          it: PickerItem)
    ensures multiset(Pick(items, cache, b))[it] == if BucketOf(it, cache) == b then multiset(items)[it] else 0
  {
    hide Pick, BucketOf;
    PickNothing(cache, b);
    if items != [] {
      var n := |items| - 1;
      var init, last := items[..n], items[n];
      PlanPartitions(init, cache, b, it);
      PlanStep(items, n, cache, b);
      assert items[..n + 1] == items == init + [last];
      AppendCounts(init, last, it);
      AppendCounts(Pick(init, cache, b), last, it);
    }
  }

  lemma {:induction false} PlanLengths(items: seq<PickerItem>, cache: map<string, CachedDoc>)
    ensures |Pick(items, cache, Insertion)| + |Pick(items, cache, ReUpload)| + |Pick(items, cache, Deletion)|
            + |Pick(items, cache, Keep)| + |Pick(items, cache, NoEffect)| == |items|
  {
    if items != [] {
      var n := |items| - 1;
      PlanLengths(items[..n], cache);
      assert items[..n + 1] == items;
      PlanStep(items, n, cache, Insertion);
      PlanStep(items, n, cache, ReUpload);
      PlanStep(items, n, cache, Deletion);
      PlanStep(items, n, cache, Keep);
      PlanStep(items, n, cache, NoEffect);
      hide Pick, BucketOf;
    }
  }

  /** The comment on DocDeltaPlan promises that the slices always cover the input.  They do
      exactly when no row is both unindexed and (unselected or without a local file). */
  lemma PlanCoversIff(items: seq<PickerItem>, cache: map<string, CachedDoc>)
    ensures var plan := PlanOf(items, cache);
            |plan.toInsert| + |plan.toReUpload| + |plan.toDelete| + |plan.toKeep| == |items|
            <==> forall it :: it in items ==> it.indexed || (it.selected && it.HasLocal())
  {
    PlanLengths(items, cache);
    var noise := Pick(items, cache, NoEffect);
    forall it ensures it in noise <==>
      it in items && BucketOf(it, cache) == NoEffect { PickHas(items, cache, NoEffect, it); }
    assert noise != [] ==> noise[0] in noise;
    hide Pick;
  }

  /** A picker row the user leaves unchecked is in no slice. */
  lemma PlanCanMissRows()
    ensures var row := LocalRow(DocFile("a.md", "/r/a.md", "h", 1));
            PlanOf([row], map[]) == Plan([], [], [], [])
  {
  }

  // ---- The cache-only delta -------------------------------------------------

  datatype DeletedDoc = DeletedDoc(path: string, id: string)

  datatype Diff = Diff(added: seq<DocFile>, changed: seq<DocFile>, same: seq<DocFile>, deleted: seq<DeletedDoc>)

  function Added(current: seq<DocFile>, prev: map<string, CachedDoc>): seq<DocFile> {
    if current == [] then []
    else
      var n := |current| - 1;
      Added(current[..n], prev) + if current[n].path !in prev then [current[n]] else []
  }

  /** The files whose cached hash is (`same`) or is not (`!same`) their current one. */
  function Matching(current: seq<DocFile>, prev: map<string, CachedDoc>, same: bool): seq<DocFile> {
    if current == [] then []
    else
      var n := |current| - 1;
      var f := current[n];
      Matching(current[..n], prev, same) + if f.path in prev && (prev[f.path].sha == f.sha) == same then [f] else []
  }

  lemma {:induction false} DiffHas(current: seq<DocFile>, prev: map<string, CachedDoc>, same: bool, f: DocFile)
    ensures f in Added(current, prev) <==> f in current && f.path !in prev
    ensures f in Matching(current, prev, same) <==>
        f in current && f.path in prev && (prev[f.path].sha == f.sha) == same
  {
    if current != [] {
      var n := |current| - 1;
      DiffHas(current[..n], prev, same, f);
      assert current == current[..n] + [current[n]];
    }
  }

  lemma {:induction false} DiffKeepsOrder(first: seq<DocFile>, second: seq<DocFile>, prev: map<string, CachedDoc>,
                                          same: bool)
    ensures Added(first + second, prev) == Added(first, prev) + Added(second, prev)
    ensures Matching(first + second, prev, same) == Matching(first, prev, same) + Matching(second, prev, same)
  {
    if second == [] {
      assert first + second == first;
    } else {
      var n := |second| - 1;
      assert (first + second)[..|first| + n] == first + second[..n];
      DiffKeepsOrder(first, second[..n], prev, same);
    }
  }

  lemma DiffNothing(prev: map<string, CachedDoc>)
    ensures Matching([], prev, true) == Matching([], prev, false) == Added([], prev) == []
  {
  }

  lemma DiffStep(current: seq<DocFile>, n: nat, prev: map<string, CachedDoc>, same: bool)
    requires n < |current|
    ensures var f := current[n];
            && Matching(current[..n + 1], prev, same)
               == Matching(current[..n], prev, same) +
                 (if f.path in prev && (prev[f.path].sha == f.sha) == same then [f] else [])
            && Added(current[..n + 1], prev) == Added(current[..n], prev) + (if f.path !in prev then [f] else [])
  {
    assert current[..n + 1][..n] == current[..n];
  }

  /** The cached paths that were not seen, in the unspecified order of a Go map iteration. */
  method Unseen(prev: map<string, CachedDoc>, seen: set<string>) returns (deleted: seq<DeletedDoc>)
    ensures forall x :: x in deleted <==> x.path in prev && x.id == prev[x.path].id && x.path !in seen
    ensures Distinct(deleted)
  {
    deleted := [];
    var rest := prev.Keys;
    while rest != {}
      invariant rest <= prev.Keys
      invariant forall x :: x in deleted <==> x.path in prev.Keys - rest && x.id == prev[x.path].id && x.path !in seen
      invariant Distinct(deleted)
    {
      var p :| p in rest;
      rest := rest - {p};
      if p in seen {
        continue;
      }
      deleted := deleted + [DeletedDoc(p, prev[p].id)];
    }
  }

  function PathSet(files: seq<DocFile>): set<string> {
    set f | f in files :: f.path
  }

  /** `DiffDocs`. */
  method DiffDocs(current: seq<DocFile>, prev: map<string, CachedDoc>) returns (d: Diff)
    ensures d.added == Added(current, prev)
    ensures d.changed == Matching(current, prev, false) && d.same == Matching(current, prev, true)
    ensures forall f :: f in d.added <==> f in current && f.path !in prev
    ensures forall f :: f in d.changed <==> f in current && f.path in prev && prev[f.path].sha != f.sha
    ensures forall f :: f in d.same <==> f in current && f.path in prev && prev[f.path].sha == f.sha
    ensures forall x :: x in d.deleted <==> x.path in prev && x.id == prev[x.path].id && x.path !in PathSet(current)
    ensures Distinct(d.deleted)
  {
    hide Matching, Added;
    DiffNothing(prev);
    var added: seq<DocFile>, changed: seq<DocFile>, same: seq<DocFile> := [], [], [];
    var seen: set<string> := {};
    for n := 0 to |current|
      invariant added == Added(current[..n], prev)
      invariant changed == Matching(current[..n], prev, false)
      invariant same == Matching(current[..n], prev, true)
      invariant seen == PathSet(current[..n])
    {
      DiffStep(current, n, prev, true);
      DiffStep(current, n, prev, false);
      var f := current[n];
      assert current[..n + 1] == current[..n] + [f];
      seen := seen + {f.path};
      if f.path in prev {
        if prev[f.path].sha == f.sha {
          same := same + [f];
        } else {
          changed := changed + [f];
        }
        continue;
      }
      added := added + [f];
    }
    assert current[..|current|] == current;
    var deleted := Unseen(prev, seen);
    d := Diff(added, changed, same, deleted);
    forall f, b ensures f in Added(current, prev) <==> f in current && f.path !in prev
                ensures f in Matching(current, prev, b) <==>
                        f in current && f.path in prev && (prev[f.path].sha == f.sha) == b
    {
      DiffHas(current, prev, b, f);
    }
  }

  // ---- The two deltas agree -------------------------------------------------

  predicate DistinctPaths(local: seq<DocFile>) {
    forall i, j :: 0 <= i < j < |local| ==> local[i].path != local[j].path
  }

  /** What the document walk delivers: one entry per path, each with a location on disk. */
  predicate IsWalk(local: seq<DocFile>) {
    DistinctPaths(local) && forall f :: f in local ==> f.abs != ""
  }

  lemma WalkFinds(local: seq<DocFile>, f: DocFile)
    requires IsWalk(local) && f in local
    ensures FindLocal(local, f.path) == Some(f)
  {
    assert FindLocal(local, f.path).Some?;
    var g := FindLocal(local, f.path).value;
    var i, j :| 0 <= i < |local| && 0 <= j < |local| && local[i] == f && local[j] == g;
  }

  function SelectedRows(items: seq<PickerItem>): (r: seq<PickerItem>)
    ensures |r| == |items|
    ensures forall i :: 0 <= i < |r| ==> r[i] == SelectedForSync(items[i])
  {
    seq(|items|, i requires 0 <= i < |items| => SelectedForSync(items[i]))
  }

  /** Row `p` of the sync plan, named by the facts the caller can see. */
  lemma SyncBucket(p: string, local: seq<DocFile>, server: seq<IndexedDocument>, cache: map<string, CachedDoc>)
    requires IsWalk(local) && Known(p, local, server)
    ensures BucketOf(SelectedForSync(MergedRow(p, local, server)), cache) ==
              var l, s := FindLocal(local, p), FindServer(server, p);
              if l.None? then Deletion
              else if s.None? then Insertion
              else if p in cache && cache[p].sha == l.value.sha then Keep
              else ReUpload
  {
  }

  /** Every known path has its row in the plan. */
  lemma SyncPlanHasKnown(p: string, b: Bucket, items: seq<PickerItem>, local: seq<DocFile>,
                         server: seq<IndexedDocument>,
                         cache: map<string, CachedDoc>)
    requires IsMerge(items, local, server) && Known(p, local, server)
    requires BucketOf(SelectedForSync(MergedRow(p, local, server)), cache) == b
    ensures PlanHas(Pick(SelectedRows(items), cache, b), p)
  {
    assert MergedRow(p, local, server).path == p;
    hide MergedRow, Known, BucketOf, Pick, StrictlySorted;
    var rows, row := SelectedRows(items), MergedRow(p, local, server);
    var i :| 0 <= i < |items| && items[i] == row;
    assert rows[i] in rows && rows[i].path == p;
    PickHas(rows, cache, b, rows[i]);
  }

  /** And the plan has no other row of that path. */
  lemma SyncPlanHasOnlyKnown(p: string, b: Bucket, items: seq<PickerItem>, local: seq<DocFile>,
                             server: seq<IndexedDocument>,
                             cache: map<string, CachedDoc>)
    requires IsMerge(items, local, server) && PlanHas(Pick(SelectedRows(items), cache, b), p)
    ensures Known(p, local, server) && BucketOf(SelectedForSync(MergedRow(p, local, server)), cache) == b
  {
    hide MergedRow, Known, BucketOf, Pick, StrictlySorted;
    var rows := SelectedRows(items);
    var row :| row in Pick(rows, cache, b) && row.path == p;
    PickHas(rows, cache, b, row);
    var i :| 0 <= i < |items| && rows[i] == row;
    assert items[i] in items && items[i].path == p;
  }

  lemma SyncPlanHas(p: string, b: Bucket, items: seq<PickerItem>, local: seq<DocFile>, server: seq<IndexedDocument>,
                    cache: map<string, CachedDoc>)
    requires IsMerge(items, local, server)
    ensures PlanHas(Pick(SelectedRows(items), cache, b), p) <==>
              Known(p, local, server) && BucketOf(SelectedForSync(MergedRow(p, local, server)), cache) == b
  {
    hide MergedRow, Known, BucketOf, IsMerge, Pick, PlanHas, SelectedRows, SelectedForSync;
    if Known(p, local, server) && BucketOf(SelectedForSync(MergedRow(p, local, server)), cache) == b {
      SyncPlanHasKnown(p, b, items, local, server, cache);
    }
    if PlanHas(Pick(SelectedRows(items), cache, b), p) {
      SyncPlanHasOnlyKnown(p, b, items, local, server, cache);
    }
  }

  /** When the server lists exactly the cached paths, the sync plan and `DiffDocs` agree bucket by bucket. */
  lemma PlanAgreesWithDiff(p: string, items: seq<PickerItem>, local: seq<DocFile>, server: seq<IndexedDocument>,
                           cache: map<string, CachedDoc>)
    requires IsWalk(local) && IsMerge(items, local, server)
    requires forall q :: q in cache <==> FindServer(server, q).Some?
    ensures var plan := PlanOf(SelectedRows(items), cache);
            && (PlanHas(plan.toInsert, p) <==> WalkHas(Added(local, cache), p))
            && (PlanHas(plan.toReUpload, p) <==> WalkHas(Matching(local, cache, false), p))
            && (PlanHas(plan.toKeep, p) <==> WalkHas(Matching(local, cache, true), p))
            && (PlanHas(plan.toDelete, p) <==> p in cache && FindLocal(local, p).None?)
  {
    SyncPlanHas(p, Insertion, items, local, server, cache);
    SyncPlanHas(p, ReUpload, items, local, server, cache);
    SyncPlanHas(p, Keep, items, local, server, cache);
    SyncPlanHas(p, Deletion, items, local, server, cache);
    if Known(p, local, server) {
      SyncBucket(p, local, server, cache);
    }
    hide MergedRow, BucketOf, IsMerge, Pick, SelectedRows, PlanHas, Added, Matching;
    var l := FindLocal(local, p);
    forall f, same ensures f in Added(local, cache) <==> f in local && f.path !in cache
                   ensures f in Matching(local, cache, same) <==>
                           f in local && f.path in cache && (cache[f.path].sha == f.sha) == same
    {
      DiffHas(local, cache, same, f);
    }
    forall f ensures f in local && f.path == p ==> l == Some(f) {
      if f in local { WalkFinds(local, f); }
    }
  }
}
