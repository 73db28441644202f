/** `runSyncFlow`, document half, and whole runs of local edits and syncs. */
module SyncFlow {
  import opened Options
  import opened DocPlan
  import opened Upload
  import opened SyncRuns

  // ---- From plan rows to uploads and deletes --------------------------------

  function DocOf(it: PickerItem): DocFile { DocFile(it.path, it.localAbs, it.localHash, it.localSize) }

  function WalkerDocs(items: seq<PickerItem>): seq<DocFile> {
    if items == [] then []
    else
      var n := |items| - 1;
      WalkerDocs(items[..n]) + if items[n].HasLocal() then [DocOf(items[n])] else []
  }

  /** `toWalkerDocs`. */
  method ToWalkerDocs(items: seq<PickerItem>) returns (out: seq<DocFile>)
    ensures out == WalkerDocs(items)
  {
    out := [];
    for i := 0 to |items|
      invariant out == WalkerDocs(items[..i])
    {
      assert items[..i + 1][..i] == items[..i];
      if !items[i].HasLocal() {
        continue;
      }
      out := out + [DocOf(items[i])];
    }
    assert items[..|items|] == items;
  }

  /** The files keep the order of their rows. */
  lemma {:induction false} WalkerDocsKeepOrder(first: seq<PickerItem>, second: seq<PickerItem>)
    ensures WalkerDocs(first + second) == WalkerDocs(first) + WalkerDocs(second)
  {
    if second == [] {
      assert first + second == first;
    } else {
      var n := |second| - 1;
      assert (first + second)[..|first| + n] == first + second[..n];
      WalkerDocsKeepOrder(first, second[..n]);
    }
  }

  function UploadsOfPlan(plan: Plan): seq<DocFile> { WalkerDocs(plan.toInsert + plan.toReUpload) }

  function CacheAfterDeletes(cache: Files, rows: seq<PickerItem>, w: World): Files {
    if rows == [] then cache
    else
      var n := |rows| - 1;
      var before := CacheAfterDeletes(cache, rows[..n], w);
      if w.deletes(rows[n].path) == Deleted then before - {rows[n].path} else before
  }

  function FailedDeletes(rows: seq<PickerItem>, w: World): nat {
    if rows == [] then 0
    else
      var n := |rows| - 1;
      FailedDeletes(rows[..n], w) + if w.deletes(rows[n].path) == Deleted then 0 else 1
  }

  function ServerAfterDeletes(server: Server, rows: seq<PickerItem>, w: World): Server {
    if rows == [] then server
    else
      var n := |rows| - 1;
      var before := ServerAfterDeletes(server, rows[..n], w);
      if w.deletes(rows[n].path) != Refused then before - {rows[n].path} else before
  }

  // ---- The flow -------------------------------------------------------------

  datatype Flags = Flags(dryRun: bool, yes: bool, confirmAdds: int, confirmDeletes: int)

  datatype Exit = ExitOk | DeletesFailed | PartialFailure | TotalFailure

  datatype Outcome =
    | NeedsConfirmation
    | DryRun
    | AlreadyInSync
    | PreflightFailed
    | Executed(cache: Files, uploads: Result, failedDeletes: nat, exit: Exit)

  function ExitFor(uploads: Result, failedDeletes: nat, noWait: bool): Exit {
    if failedDeletes > 0 then DeletesFailed
    else if !noWait && uploads.failed > 0 then (if uploads.uploaded == 0 then TotalFailure else PartialFailure)
    else ExitOk
  }

  predicate NothingToDo(plan: Plan) { plan.toInsert == [] && plan.toReUpload == [] && plan.toDelete == [] }

  function OutcomeOf(plan: Plan, cached: Files, flags: Flags, preflightOk: bool, w: World): Outcome {
    if !flags.dryRun && !flags.yes && (|plan.toInsert| > flags.confirmAdds || |plan.toDelete| > flags.confirmDeletes)
    then NeedsConfirmation
    else if flags.dryRun then DryRun
    else if NothingToDo(plan) then AlreadyInSync
    else if plan.toInsert + plan.toReUpload != [] && !preflightOk then PreflightFailed
    else
      var (res, cache) := Run(NOTHING_DONE, cached, UploadsOfPlan(plan), 0, EnvOf(w));
      var failed := FailedDeletes(plan.toDelete, w);
      Executed(CacheAfterDeletes(cache, plan.toDelete, w), res, failed, ExitFor(res, failed, w.noWait))
  }

  ghost function NotDeleted(rows: seq<PickerItem>, w: World): set<nat> {
    set i: nat | i < |rows| && w.deletes(rows[i].path) != Deleted
  }

  /** Which way a sync ends, outcome by outcome: a dry run changes nothing whatever else is given, a
      plan over a threshold waits for `--yes`, a failed preflight stops only a plan with uploads, and
      what is executed exits by the refused deletes first and by the failed uploads after them. */
  ghost predicate EndsAs(o: Outcome, plan: Plan, flags: Flags, preflightOk: bool, w: World) {
    var confirmed := flags.yes || (|plan.toInsert| <= flags.confirmAdds && |plan.toDelete| <= flags.confirmDeletes);
    var uploads := plan.toInsert != [] || plan.toReUpload != [];
    && (o.DryRun? <==> flags.dryRun)
    && (o.NeedsConfirmation? <==> !flags.dryRun && !confirmed)
    && (o.AlreadyInSync? <==> !flags.dryRun && confirmed && !uploads && plan.toDelete == [])
    && (o.PreflightFailed? <==> !flags.dryRun && confirmed && uploads && !preflightOk)
    && (o.Executed? <==> !flags.dryRun && confirmed && if uploads then preflightOk else plan.toDelete != [])
    && (o.Executed? ==>
          var failedUploads := !w.noWait && o.uploads.failed > 0;
          && o.failedDeletes == |NotDeleted(plan.toDelete, w)|
          && (o.exit == DeletesFailed <==> exists i :: i in NotDeleted(plan.toDelete, w))
          && (o.exit == TotalFailure <==> o.failedDeletes == 0 && failedUploads && o.uploads.uploaded == 0)
          && (o.exit == PartialFailure <==> o.failedDeletes == 0 && failedUploads && o.uploads.uploaded > 0)
          && (o.exit == ExitOk <==> o.failedDeletes == 0 && !failedUploads))
  }

  lemma OutcomesAre(plan: Plan, cached: Files, flags: Flags, preflightOk: bool, w: World)
    ensures EndsAs(OutcomeOf(plan, cached, flags, preflightOk, w), plan, flags, preflightOk, w)
  {
    hide Run, EnvOf, UploadsOfPlan, CacheAfterDeletes;
    hide NotDeleted;
    FailedDeletesCount(plan.toDelete, w);
    assert |NotDeleted(plan.toDelete, w)| > 0 <==> NotDeleted(plan.toDelete, w) != {};
  }

  /** What is executed is the sync of the theorems below, whatever the server holds. */
  ghost predicate Executes(o: Outcome, s: State, items: seq<PickerItem>, w: World)
    requires o.Executed?
  {
    && (forall server :: o.cache == AfterSync(s.(server := server), items, w).cache)
    && (var plan := SyncPlan(s, items);
        o.uploads == Run(NOTHING_DONE, s.cache, WalkerDocs(plan.toInsert + plan.toReUpload), 0, EnvOf(w)).0)
    && (!w.noWait && o.exit == ExitOk <==> ExitsOk(s, items, w))
  }

  lemma ExecutedAs(s: State, items: seq<PickerItem>, flags: Flags, preflightOk: bool, w: World)
    ensures var o := OutcomeOf(SyncPlan(s, items), s.cache, flags, preflightOk, w);
            o.Executed? ==> Executes(o, s, items, w)
  {
    hide PlanOf, Run, EnvOf, WalkerDocs, FailedDeletes;
  }

  lemma OneMoreDelete(rows: seq<PickerItem>, w: World)
    requires rows != []
    ensures var n := |rows| - 1;
            |NotDeleted(rows, w)| ==
              |NotDeleted(rows[..n], w)| + if w.deletes(rows[n].path) == Deleted then 0 else 1
  {
    var n := |rows| - 1;
    var before, after := NotDeleted(rows[..n], w), NotDeleted(rows, w);
    if w.deletes(rows[n].path) == Deleted {
      assert after == before;
    } else {
      assert after == before + {n};
    }
  }

  lemma {:induction false} FailedDeletesCount(rows: seq<PickerItem>, w: World)
    ensures FailedDeletes(rows, w) == |NotDeleted(rows, w)|
  {
    if rows != [] {
      hide NotDeleted;
      FailedDeletesCount(rows[..|rows| - 1], w);
      OneMoreDelete(rows, w);
    }
  }

  /** The two results of the delete loop, taken apart at its last row. */
  lemma DeleteStep(cache: Files, rows: seq<PickerItem>, i: nat, w: World)
    ensures CacheAfterDeletes(cache, rows[..0], w) == cache && FailedDeletes(rows[..0], w) == 0
    ensures i < |rows| ==>
              var deleted, before := w.deletes(rows[i].path) == Deleted, CacheAfterDeletes(cache, rows[..i], w);
              && CacheAfterDeletes(cache, rows[..i + 1], w) == (if deleted then before - {rows[i].path} else before)
              && FailedDeletes(rows[..i + 1], w) == FailedDeletes(rows[..i], w) + if deleted then 0 else 1
  {
    if i < |rows| {
      assert rows[..i + 1][..i] == rows[..i];
    }
  }

  /** The document half of `runSyncFlow`; the new cache is a copy, saved only at the end. */
  method RunSyncFlow(local: seq<DocFile>, listing: seq<IndexedDocument>, cached: Files, flags: Flags,
                     preflightOk: bool, w: World)
    returns (outcome: Outcome, items: seq<PickerItem>)
    ensures IsMerge(items, local, listing)
    ensures outcome == OutcomeOf(PlanOf(SelectedRows(items), cached), cached, flags, preflightOk, w)
    ensures outcome.Executed? ==> Executes(outcome, State(local, map[], cached), items, w)
    ensures EndsAs(outcome, PlanOf(SelectedRows(items), cached), flags, preflightOk, w)
  {
    hide IsMerge, Run, WalkerDocs, PlanOf, EnvOf, EndsAs, Executes, ExitFor, CacheAfterDeletes, FailedDeletes;
    items := MergeDocItems(local, listing);
    var rows := new PickerItem[|items|](i requires 0 <= i < |items| => items[i]);
    ApplySyncSelection(rows);
    assert rows[..] == SelectedRows(items);
    var plan := ComputeDocDelta(rows[..], cached);
    OutcomesAre(plan, cached, flags, preflightOk, w);
    ExecutedAs(State(local, map[], cached), items, flags, preflightOk, w);
    if !flags.dryRun && !flags.yes {
      if |plan.toInsert| > flags.confirmAdds {
        return NeedsConfirmation, items;
      }
      if |plan.toDelete| > flags.confirmDeletes {
        return NeedsConfirmation, items;
      }
    }
    if flags.dryRun {
      return DryRun, items;
    } else if |plan.toInsert| == 0 && |plan.toReUpload| == 0 && |plan.toDelete| == 0 {
      return AlreadyInSync, items;
    }
    var toUpload := plan.toInsert + plan.toReUpload;
    if |toUpload| > 0 && !preflightOk {
      return PreflightFailed, items;
    }
    var newCache := new DocsCache(cached);
    var uploadResult := NOTHING_DONE;
    var docs := ToWalkerDocs(toUpload);
    if |toUpload| > 0 {
      uploadResult := UploadInBatches(docs, newCache, EnvOf(w));
    } else {
      NothingUploaded(toUpload, cached, w);
    }
    var deletesFailed := 0;
    ghost var uploadedCache := newCache.Files;
    DeleteStep(uploadedCache, plan.toDelete, 0, w);
    for i := 0 to |plan.toDelete|
      invariant newCache.Files == CacheAfterDeletes(uploadedCache, plan.toDelete[..i], w)
      invariant deletesFailed == FailedDeletes(plan.toDelete[..i], w)
    {
      DeleteStep(uploadedCache, plan.toDelete, i, w);
      var d := plan.toDelete[i];
      if w.deletes(d.path) != Deleted {
        deletesFailed := deletesFailed + 1;
      } else {
        newCache.Files := newCache.Files - {d.path};
      }
    }
    assert plan.toDelete[..|plan.toDelete|] == plan.toDelete;
    outcome := Executed(newCache.Files, uploadResult, deletesFailed, ExitFor(uploadResult, deletesFailed, w.noWait));
  }

  lemma NothingUploaded(toUpload: seq<PickerItem>, cached: Files, w: World)
    requires toUpload == []
    ensures Run(NOTHING_DONE, cached, WalkerDocs(toUpload), 0, EnvOf(w)) == (NOTHING_DONE, cached)
  {
  }

  // ---- Which files a sync uploads and deletes -------------------------------

  datatype State = State(local: seq<DocFile>, server: Server, cache: Files)

  /** `listing` is what the server reports: one entry per indexed path, in any order. */
  ghost predicate IsListing(listing: seq<IndexedDocument>, server: Server) {
    forall p :: FindServer(listing, p).Some? <==> p in server
  }

  /** The rows of a sync started in `s`. */
  ghost predicate RowsFor(s: State, items: seq<PickerItem>, listing: seq<IndexedDocument>) {
    IsWalk(s.local) && IsListing(listing, s.server) && IsMerge(items, s.local, listing)
  }

  function SyncPlan(s: State, items: seq<PickerItem>): Plan { PlanOf(SelectedRows(items), s.cache) }

  function SyncDocs(s: State, items: seq<PickerItem>): seq<DocFile> { UploadsOfPlan(SyncPlan(s, items)) }

  lemma {:induction false} WalkerDocsHas(items: seq<PickerItem>, f: DocFile)
    ensures f in WalkerDocs(items) <==> exists it :: it in items && it.HasLocal() && DocOf(it) == f
  {
    if items != [] {
      var n := |items| - 1;
      WalkerDocsHas(items[..n], f);
      assert items == items[..n] + [items[n]];
    }
  }

  /** The cache says that the server already has this version of the file. */
  predicate UpToDate(f: DocFile, s: State) {
    f.path in s.server && f.path in s.cache && s.cache[f.path].sha == f.sha
  }

  lemma RowOfFile(s: State, items: seq<PickerItem>, listing: seq<IndexedDocument>, f: DocFile)
    requires RowsFor(s, items, listing) && f in s.local
    ensures var row := SelectedForSync(MergedRow(f.path, s.local, listing));
            && row in SelectedRows(items) && row.HasLocal() && DocOf(row) == f
            && (BucketOf(row, s.cache) == Keep <==> UpToDate(f, s))
            && (!UpToDate(f, s) ==> BucketOf(row, s.cache) == Insertion || BucketOf(row, s.cache) == ReUpload)
  {
    WalkFinds(s.local, f);
    SyncBucket(f.path, s.local, listing, s.cache);
    var row := MergedRow(f.path, s.local, listing);
    assert row in items;
    var i :| 0 <= i < |items| && items[i] == row;
    assert SelectedRows(items)[i] == SelectedForSync(row);
  }

  /** A sync uploads exactly the local files that the cache does not show as up to date. */
  lemma UploadsAre(s: State, items: seq<PickerItem>, listing: seq<IndexedDocument>, f: DocFile)
    requires RowsFor(s, items, listing)
    ensures f in SyncDocs(s, items) <==> f in s.local && !UpToDate(f, s)
  {
    hide MergedRow, BucketOf, Pick, WalkerDocs;
    var rows, plan := SelectedRows(items), SyncPlan(s, items);
    WalkerDocsHas(plan.toInsert + plan.toReUpload, f);
    if f in SyncDocs(s, items) {
      var it :| it in plan.toInsert + plan.toReUpload && it.HasLocal() && DocOf(it) == f;
      PickHas(rows, s.cache, Insertion, it);
      PickHas(rows, s.cache, ReUpload, it);
      var i :| 0 <= i < |rows| && rows[i] == it;
      assert items[i] in items;
      RowIsLocal(s, items[i], listing);
      RowOfFile(s, items, listing, f);
    }
    if f in s.local && !UpToDate(f, s) {
      RowOfFile(s, items, listing, f);
      var row := SelectedForSync(MergedRow(f.path, s.local, listing));
      PickHas(rows, s.cache, Insertion, row);
      PickHas(rows, s.cache, ReUpload, row);
      assert row in plan.toInsert + plan.toReUpload;
    }
  }

  lemma RowIsLocal(s: State, it: PickerItem, listing: seq<IndexedDocument>)
    requires it == MergedRow(it.path, s.local, listing)
    requires SelectedForSync(it).HasLocal()
    ensures DocOf(SelectedForSync(it)) in s.local
  {
    var l := FindLocal(s.local, it.path);
    assert l.Some?;
    assert l.value == DocOf(it);
  }

  /** A sync deletes exactly the indexed paths without a local file. */
  lemma DeletesAre(s: State, items: seq<PickerItem>, listing: seq<IndexedDocument>, p: string)
    requires RowsFor(s, items, listing)
    ensures PlanHas(SyncPlan(s, items).toDelete, p) <==> p in s.server && !WalkHas(s.local, p)
  {
    SyncPlanHas(p, Deletion, items, s.local, listing, s.cache);
    if Known(p, s.local, listing) {
      SyncBucket(p, s.local, listing, s.cache);
    }
    hide MergedRow, BucketOf, Pick, IsMerge, SelectedRows, IsWalk, PlanHas;
    var l := FindLocal(s.local, p);
    if l.Some? {
      assert WalkHas(s.local, p);
    }
  }

  /** No path is uploaded twice in one sync. */
  lemma UploadsAreDistinct(s: State, items: seq<PickerItem>, listing: seq<IndexedDocument>)
    requires RowsFor(s, items, listing)
    ensures DistinctPaths(SyncDocs(s, items))
  {
    var rows := SelectedRows(items);
    assert DistinctRows(rows) by { hide MergedRow, Known; }
    hide Pick, WalkerDocs, IsMerge, BucketOf;
    BucketsAreDistinct(rows, s.cache);
    WalkerDocsDistinct(Pick(rows, s.cache, Insertion) + Pick(rows, s.cache, ReUpload));
  }

  lemma BucketsAreDistinct(rows: seq<PickerItem>, cache: Files)
    requires DistinctRows(rows)
    ensures DistinctRows(Pick(rows, cache, Insertion) + Pick(rows, cache, ReUpload))
  {
    hide Pick, BucketOf;
    var inserted, again := Pick(rows, cache, Insertion), Pick(rows, cache, ReUpload);
    PickDistinct(rows, cache, Insertion);
    PickDistinct(rows, cache, ReUpload);
    forall x, y | x in inserted && y in again ensures x.path != y.path {
      PickHas(rows, cache, Insertion, x);
      PickHas(rows, cache, ReUpload, y);
      var i, j :| 0 <= i < |rows| && 0 <= j < |rows| && rows[i] == x && rows[j] == y;
    }
  }

  ghost predicate DistinctRows(rows: seq<PickerItem>) {
    forall i, j :: 0 <= i < j < |rows| ==> rows[i].path != rows[j].path
  }

  lemma {:induction false} PickDistinct(rows: seq<PickerItem>, cache: Files, b: Bucket)
    requires DistinctRows(rows)
    ensures DistinctRows(Pick(rows, cache, b))
  {
    if rows != [] {
      var n := |rows| - 1;
      PickDistinct(rows[..n], cache, b);
      forall it | it in Pick(rows[..n], cache, b) ensures it.path != rows[n].path { PickHas(rows[..n], cache, b, it); }
      hide BucketOf;
    }
  }

  lemma {:induction false} WalkerDocsDistinct(items: seq<PickerItem>)
    requires DistinctRows(items)
    ensures DistinctPaths(WalkerDocs(items))
  {
    if items != [] {
      var n := |items| - 1;
      WalkerDocsDistinct(items[..n]);
      forall f | f in WalkerDocs(items[..n]) ensures f.path != items[n].path { WalkerDocsHas(items[..n], f); }
    }
  }

  // ---- One sync as a state change -------------------------------------------

  /** Executing the plan.  A plan with nothing to do changes nothing, so this also covers
      the flow's early return. */
  function AfterSync(s: State, items: seq<PickerItem>, w: World): State {
    var plan, docs := SyncPlan(s, items), SyncDocs(s, items);
    State(s.local,
          ServerAfterDeletes(AfterUploads(s.server, docs, w), plan.toDelete, w),
          CacheAfterDeletes(Run(NOTHING_DONE, s.cache, docs, 0, EnvOf(w)).1, plan.toDelete, w))
  }

  lemma NothingToDoChangesNothing(s: State, items: seq<PickerItem>, w: World)
    requires NothingToDo(SyncPlan(s, items))
    ensures AfterSync(s, items, w) == s
  {
    hide PlanOf;
    NothingUploaded([], s.cache, w);
  }

  lemma {:induction false} DeletesPointwise(server: Server, cache: Files, rows: seq<PickerItem>, w: World, p: string)
    ensures var server', cache' := ServerAfterDeletes(server, rows, w), CacheAfterDeletes(cache, rows, w);
            && (p in server' <==> p in server && !(PlanHas(rows, p) && w.deletes(p) != Refused))
            && (p in cache' <==> p in cache && !(PlanHas(rows, p) && w.deletes(p) == Deleted))
            && (p in server' ==> server'[p] == server[p])
            && (p in cache' ==> cache'[p] == cache[p])
  {
    if rows != [] {
      var n := |rows| - 1;
      DeletesPointwise(server, cache, rows[..n], w, p);
      assert rows == rows[..n] + [rows[n]];
      assert PlanHas(rows, p) <==> PlanHas(rows[..n], p) || rows[n].path == p;
    }
  }

  /** Server and cache after a sync, path by path, for any behaviour of the server. */
  lemma AfterSyncAt(s: State, items: seq<PickerItem>, listing: seq<IndexedDocument>, w: World, p: string)
    requires RowsFor(s, items, listing)
    ensures var s', docs := AfterSync(s, items, w), SyncDocs(s, items);
            var l := FindLocal(s.local, p);
            if l.Some? then
              var f := l.value;
              && (f in docs && Applied(f, w) ==> p in s'.server && s'.server[p].sha == f.sha)
              && (!(f in docs && Applied(f, w)) ==>
                (p in s'.server <==> p in s.server) && (p in s'.server ==> s'.server[p] == s.server[p]))
              && (f in Written(docs, 0, w) ==> p in s'.cache && s'.cache[p].sha == f.sha)
              && (f !in Written(docs, 0, w) ==>
                (p in s'.cache <==> p in s.cache) && (p in s'.cache ==> s'.cache[p] == s.cache[p]))
            else
              && (p in s'.server <==> p in s.server && w.deletes(p) == Refused)
              && (p in s'.cache <==> p in s.cache && !(p in s.server && w.deletes(p) == Deleted))
              && (p in s'.server ==> s'.server[p] == s.server[p])
              && (p in s'.cache ==> s'.cache[p] == s.cache[p])
  {
    var plan, docs := SyncPlan(s, items), SyncDocs(s, items);
    UploadsAreDistinct(s, items, listing);
    forall f ensures f in docs <==> f in s.local && !UpToDate(f, s) { UploadsAre(s, items, listing, f); }
    DeletesAre(s, items, listing, p);
    LocalHas(s.local, p);
    hide IsMerge, SyncPlan, SyncDocs, UpToDate;
    UploadsAt(s, docs, w, p);
    hide Run, AfterUploads, Written, Applied, WalkerDocs, PlanHas;
    DeletesPointwise(AfterUploads(s.server, docs, w), Run(NOTHING_DONE, s.cache, docs, 0, EnvOf(w)).1, plan.toDelete,
      w, p);
  }

  lemma LocalHas(local: seq<DocFile>, p: string)
    ensures FindLocal(local, p).Some? <==> WalkHas(local, p)
  {
    if FindLocal(local, p).Some? {
      assert FindLocal(local, p).value in local;
    }
  }

  /** Server and cache after the uploads, before the deletes. */
  lemma UploadsAt(s: State, docs: seq<DocFile>, w: World, p: string)
    requires IsWalk(s.local) && DistinctPaths(docs) && forall f :: f in docs ==> f in s.local
    ensures var server, cache := AfterUploads(s.server, docs, w), Run(NOTHING_DONE, s.cache, docs, 0, EnvOf(w)).1;
            var l := FindLocal(s.local, p);
            var applied := l.Some? && l.value in docs && Applied(l.value, w);
            var written := l.Some? && l.value in Written(docs, 0, w);
            && (applied ==> p in server && server[p].sha == l.value.sha)
            && (!applied ==> (p in server <==> p in s.server) && (p in server ==> server[p] == s.server[p]))
            && (written ==> p in cache && cache[p].sha == l.value.sha)
            && (!written ==> (p in cache <==> p in s.cache) && (p in cache ==> cache[p] == s.cache[p]))
  {
    RunOverwrites(NOTHING_DONE, s.cache, docs, 0, w);
    ServerAfterUploads(s.server, docs, w);
    forall f | f in s.local && f.path == p ensures FindLocal(s.local, p) == Some(f) { WalkFinds(s.local, f); }
    hide Run, AfterUploads, Written, Applied, IsWalk;
  }

  // ---- Soundness over one sync ----------------------------------------------

  predicate AgreeAt(s: State, p: string) { p in s.cache && p in s.server ==> s.cache[p].sha == s.server[p].sha }

  lemma SoundAt(s: State, items: seq<PickerItem>, listing: seq<IndexedDocument>, w: World, p: string)
    requires RowsFor(s, items, listing) && AgreeAt(s, p)
    ensures var docs := SyncDocs(s, items);
            AgreeAt(AfterSync(s, items, w), p)
            <==> (WalkHas(docs, p) ==> Harmless(FindLocal(docs, p).value, docs, s.cache, s.server, w))
  {
    var docs := SyncDocs(s, items);
    UploadsAreDistinct(s, items, listing);
    RunOverwrites(NOTHING_DONE, s.cache, docs, 0, w);
    AfterSyncAt(s, items, listing, w, p);
    LocalHas(docs, p);
    LocalHas(s.local, p);
    hide AfterSync, Written, Applied, Run, UpToDate;
    forall f ensures f in docs ==> f in s.local && FindLocal(s.local, f.path) == Some(f) {
      UploadsAre(s, items, listing, f);
      if f in s.local { WalkFinds(s.local, f); }
    }
    hide SyncDocs, RowsFor;
  }

  /** A sync started from a sound cache ends in one exactly when every upload is harmless;
      deletes never do damage. */
  lemma SyncSoundIff(s: State, items: seq<PickerItem>, listing: seq<IndexedDocument>, w: World)
    requires RowsFor(s, items, listing) && Sound(s.cache, s.server)
    ensures var s', docs := AfterSync(s, items, w), SyncDocs(s, items);
            Sound(s'.cache, s'.server) <==> forall f :: f in docs ==> Harmless(f, docs, s.cache, s.server, w)
  {
    var s', docs := AfterSync(s, items, w), SyncDocs(s, items);
    forall f | f in docs ensures FindLocal(docs, f.path) == Some(f) {
      UploadsAreDistinct(s, items, listing);
      UniqueInDocs(docs, f);
    }
    forall p ensures AgreeAt(s', p) <==>
      (WalkHas(docs, p) ==> Harmless(FindLocal(docs, p).value, docs, s.cache, s.server, w)) {
      SoundAt(s, items, listing, w, p);
    }
    hide AfterSync, Harmless, SyncDocs, RowsFor;
    SoundIsEverywhere(s');
    forall f | f in docs ensures WalkHas(docs, f.path) {}
  }

  lemma SoundIsEverywhere(s: State)
    ensures Sound(s.cache, s.server) <==> forall p :: AgreeAt(s, p)
  {
    if forall p :: AgreeAt(s, p) {
      forall p | p in s.cache && p in s.server ensures s.cache[p].sha == s.server[p].sha {
        assert AgreeAt(s, p);
      }
    }
  }

  lemma UniqueInDocs(docs: seq<DocFile>, f: DocFile)
    requires DistinctPaths(docs) && f in docs
    ensures FindLocal(docs, f.path) == Some(f)
  {
    var g := FindLocal(docs, f.path).value;
    var i, j :| 0 <= i < |docs| && 0 <= j < |docs| && docs[i] == f && docs[j] == g;
  }

  // ---- What the user can conclude from the outcome --------------------------

  lemma {:induction false} ClassifiedOnlyGrows(res: Result, failures: seq<Failure>)
    ensures var r := Classified(res, failures);
            && r.failed >= res.failed && r.skipped >= res.skipped
            && (r.failed == res.failed && r.skipped == res.skipped ==> failures == [])
  {
    if failures != [] {
      ClassifiedOnlyGrows(res, failures[..|failures| - 1]);
    }
  }

  lemma {:induction false} NoFailuresMeansIndexed(uploads: seq<DocumentUpload>, fate: string -> Fate, u: DocumentUpload)
    requires FailuresFor(uploads, fate) == [] && FailedIngestions(uploads, fate) == [] && u in uploads
    ensures fate(u.name).Indexed?
  {
    var n := |uploads| - 1;
    assert uploads == uploads[..n] + [uploads[n]];
    if u in uploads[..n] {
      NoFailuresMeansIndexed(uploads[..n], fate, u);
    }
  }

  lemma {:induction false} AllKept(chunk: seq<DocFile>, env: Env)
    requires |Kept(chunk, env)| == |chunk|
    ensures Kept(chunk, env) == chunk
  {
    if chunk != [] {
      var n := |chunk| - 1;
      KeptIsShorter(chunk[..n], env);
      AllKept(chunk[..n], env);
      assert chunk == chunk[..n] + [chunk[n]];
    }
  }

  lemma ChunkClean(res: Result, files: Files, chunk: seq<DocFile>, k: nat, w: World)
    requires !w.noWait && chunk != []
    ensures var r := ChunkRun(res, files, chunk, k, EnvOf(w)).0;
            && r.failed >= res.failed && r.skipped >= res.skipped
            && (r.failed == res.failed && r.skipped == res.skipped ==>
                  ChunkWritten(chunk, k, w) == chunk && forall f :: f in chunk ==> Applied(f, w))
  {
    hide Kept, JobsFor, FailuresFor, FailedIngestions, CompletedCount, Classified, WithJobs;
    var env := EnvOf(w);
    var kept := Kept(chunk, env);
    var uploads := UploadsOf(kept, env);
    KeptIsShorter(chunk, env);
    var unread := res.(failed := res.failed + (|chunk| - |kept|));
    RepliesAddUp(uploads, w.fate);
    ClassifiedOnlyGrows(unread.(batchIds := unread.batchIds + ["batch"]), FailuresFor(uploads, w.fate));
    var r := ChunkRun(res, files, chunk, k, EnvOf(w)).0;
    if r.failed == res.failed && r.skipped == res.skipped {
      AllKept(chunk, env);
      forall i | 0 <= i < |chunk| ensures Applied(chunk[i], w) {
        NoFailuresMeansIndexed(uploads, w.fate, uploads[i]);
        KeptIsSubset(chunk, env, chunk[i]);
      }
    }
  }

  /** Waiting for a run that reports nothing failed and nothing skipped: every file was
      indexed by the server and recorded in the cache. */
  lemma {:induction false} RunClean(res: Result, files: Files, docs: seq<DocFile>, k: nat, w: World)
    requires !w.noWait
    ensures var r := Run(res, files, docs, k, EnvOf(w)).0;
            && r.failed >= res.failed && r.skipped >= res.skipped
            && (r.failed == res.failed && r.skipped == res.skipped ==>
                  Written(docs, k, w) == docs && forall f :: f in docs ==> Applied(f, w))
    decreases |docs|
  {
    if docs != [] {
      var m := Min(UPLOAD_BATCH_SIZE, |docs|);
      ChunkClean(res, files, docs[..m], k, w);
      hide ChunkRun, ChunkWritten, Applied;
      var (r, c) := ChunkRun(res, files, docs[..m], k, EnvOf(w));
      RunClean(r, c, docs[m..], k + 1, w);
      assert docs == docs[..m] + docs[m..];
    }
  }

  lemma {:induction false} NoFailedDeletes(rows: seq<PickerItem>, w: World, p: string)
    requires FailedDeletes(rows, w) == 0 && PlanHas(rows, p)
    ensures w.deletes(p) == Deleted
  {
    var n := |rows| - 1;
    assert rows == rows[..n] + [rows[n]];
    if rows[n].path != p {
      assert PlanHas(rows[..n], p);
      NoFailedDeletes(rows[..n], w, p);
    }
  }

  /** The server holds exactly the local documents, each in its local version. */
  ghost predicate Converged(s: State) {
    && (forall f :: f in s.local ==> f.path in s.server && s.server[f.path].sha == f.sha)
    && (forall p :: p in s.server ==> WalkHas(s.local, p))
  }

  /** A waited-for sync ends with exit code zero; documents skipped as duplicates do not count
      against it. */
  predicate ExitsOk(s: State, items: seq<PickerItem>, w: World) {
    var res := Run(NOTHING_DONE, s.cache, SyncDocs(s, items), 0, EnvOf(w)).0;
    !w.noWait && ExitFor(res, FailedDeletes(SyncPlan(s, items).toDelete, w), w.noWait) == ExitOk
  }

  /** Exit code zero, and nothing was skipped either. */
  predicate ReportsSuccess(s: State, items: seq<PickerItem>, w: World) {
    ExitsOk(s, items, w) && Run(NOTHING_DONE, s.cache, SyncDocs(s, items), 0, EnvOf(w)).0.skipped == 0
  }

  /** The local file, and the cache's word that the server has this version, which it has not. */
  ghost predicate Stale(s: State, f: DocFile) {
    f in s.local && UpToDate(f, s) && s.server[f.path].sha != f.sha
  }

  /** The server refuses the document because it knows the content, under whatever path. */
  predicate Duplicate(f: DocFile, w: World) { w.fate(f.path) == Rejected(BENIGN) }

  /** The server knows the local version under the path of the file. */
  predicate OnServer(f: DocFile, server: Server) { f.path in server && server[f.path].sha == f.sha }

  lemma {:induction false} NoFailuresCounted(res: Result, failures: seq<Failure>)
    ensures Classified(res, failures).failed >= res.failed
    ensures Classified(res, failures).failed == res.failed <==> forall f :: f in failures ==> f.reason == BENIGN
  {
    if failures != [] {
      var n := |failures| - 1;
      NoFailuresCounted(res, failures[..n]);
      assert failures == failures[..n] + [failures[n]];
    }
  }

  lemma {:induction false} IndexedOrBenign(uploads: seq<DocumentUpload>, fate: string -> Fate, u: DocumentUpload)
    requires (forall f :: f in FailuresFor(uploads, fate) ==> f.reason == BENIGN)
        && FailedIngestions(uploads, fate) == []
    requires u in uploads
    ensures fate(u.name).Indexed? || fate(u.name) == Rejected(BENIGN)
  {
    var n := |uploads| - 1;
    assert uploads == uploads[..n] + [uploads[n]];
    if u in uploads[..n] {
      IndexedOrBenign(uploads[..n], fate, u);
    } else if fate(u.name).Rejected? {
      assert Failure(u.name, fate(u.name).reason) in FailuresFor(uploads, fate);
    }
  }

  lemma ChunkFailsNothing(res: Result, files: Files, chunk: seq<DocFile>, k: nat, w: World)
    requires !w.noWait && chunk != []
    ensures var r := ChunkRun(res, files, chunk, k, EnvOf(w)).0;
            r.failed >= res.failed
            && (r.failed == res.failed ==> forall f :: f in chunk ==> Applied(f, w) || Duplicate(f, w))
  {
    hide Kept, JobsFor, FailuresFor, FailedIngestions, CompletedCount, Classified, WithJobs;
    var env := EnvOf(w);
    var kept := Kept(chunk, env);
    var uploads := UploadsOf(kept, env);
    KeptIsShorter(chunk, env);
    var unread := res.(failed := res.failed + (|chunk| - |kept|));
    RepliesAddUp(uploads, w.fate);
    NoFailuresCounted(unread.(batchIds := unread.batchIds + ["batch"]), FailuresFor(uploads, w.fate));
    var r := ChunkRun(res, files, chunk, k, EnvOf(w)).0;
    if r.failed == res.failed {
      AllKept(chunk, env);
      forall i | 0 <= i < |chunk| ensures Applied(chunk[i], w) || Duplicate(chunk[i], w) {
        IndexedOrBenign(uploads, w.fate, uploads[i]);
        KeptIsSubset(chunk, env, chunk[i]);
      }
    }
  }

  /** Waiting for a run that reports nothing failed: every file was indexed by the server or
      refused as a duplicate. */
  lemma {:induction false} RunFailsNothing(res: Result, files: Files, docs: seq<DocFile>, k: nat, w: World)
    requires !w.noWait
    ensures var r := Run(res, files, docs, k, EnvOf(w)).0;
            r.failed >= res.failed
            && (r.failed == res.failed ==> forall f :: f in docs ==> Applied(f, w) || Duplicate(f, w))
    decreases |docs|
  {
    if docs != [] {
      var m := Min(UPLOAD_BATCH_SIZE, |docs|);
      ChunkFailsNothing(res, files, docs[..m], k, w);
      hide ChunkRun, Applied, Duplicate;
      var (r, c) := ChunkRun(res, files, docs[..m], k, EnvOf(w));
      RunFailsNothing(r, c, docs[m..], k + 1, w);
      assert docs == docs[..m] + docs[m..];
    }
  }

  lemma ExitOkMeans(s: State, items: seq<PickerItem>, w: World)
    requires ExitsOk(s, items, w)
    ensures forall f :: f in SyncDocs(s, items) ==> Applied(f, w) || Duplicate(f, w)
    ensures FailedDeletes(SyncPlan(s, items).toDelete, w) == 0
  {
    hide SyncDocs, SyncPlan, Applied, Duplicate, Run;
    RunFailsNothing(NOTHING_DONE, s.cache, SyncDocs(s, items), 0, w);
  }

  /** One local file after a sync with exit code zero, whatever the cache was worth before. */
  lemma FileAfterExitOk(s: State, items: seq<PickerItem>, listing: seq<IndexedDocument>, w: World, f: DocFile)
    requires RowsFor(s, items, listing) && ExitsOk(s, items, w) && f in s.local
    ensures OnServer(f, AfterSync(s, items, w).server) <==>
              (f in SyncDocs(s, items) && w.fate(f.path).Indexed?) || OnServer(f, s.server)
  {
    ExitOkMeans(s, items, w);
    UploadsAre(s, items, listing, f);
    AfterSyncAt(s, items, listing, w, f.path);
    WalkFinds(s.local, f);
    hide AfterSync, Written, SyncDocs, RowsFor, ExitsOk;
  }

  /** Nothing else is left on the server. */
  lemma ServerAfterExitOk(s: State, items: seq<PickerItem>, listing: seq<IndexedDocument>, w: World, p: string)
    requires RowsFor(s, items, listing) && ExitsOk(s, items, w)
    requires p in AfterSync(s, items, w).server
    ensures WalkHas(s.local, p)
  {
    ExitOkMeans(s, items, w);
    AfterSyncAt(s, items, listing, w, p);
    DeletesAre(s, items, listing, p);
    LocalHas(s.local, p);
    if !WalkHas(s.local, p) { NoFailedDeletes(SyncPlan(s, items).toDelete, w, p); }
    hide AfterSync, SyncDocs, RowsFor, ExitsOk;
  }

  /** Whatever the cache was worth: a sync with exit code zero, skipped documents included, has
      made the server equal to the local documents exactly when every one of them was either
      uploaded and indexed, or on the server in its version before. */
  lemma ExitOkConvergesIff(s: State, items: seq<PickerItem>, listing: seq<IndexedDocument>, w: World)
    requires RowsFor(s, items, listing) && ExitsOk(s, items, w)
    ensures Converged(AfterSync(s, items, w)) <==>
              forall f :: f in s.local ==>
                (f in SyncDocs(s, items) && w.fate(f.path).Indexed?) || OnServer(f, s.server)
  {
    SyncKeepsLocal(s, items, w);
    hide AfterSync, RowsFor, ExitsOk, SyncDocs;
    var s' := AfterSync(s, items, w);
    forall f | f in s.local
      ensures OnServer(f, s'.server) <==> (f in SyncDocs(s, items) && w.fate(f.path).Indexed?) || OnServer(f, s.server)
    {
      FileAfterExitOk(s, items, listing, w, f);
    }
    forall p | p in s'.server ensures WalkHas(s.local, p) {
      ServerAfterExitOk(s, items, listing, w, p);
    }
    hide WalkHas;
    assert Converged(s') <==> forall f :: f in s.local ==> OnServer(f, s'.server);
  }

  /** From a sound cache it has exactly when each document refused as a duplicate was already
      there under its own path. */
  lemma SoundExitOkConvergesIff(s: State, items: seq<PickerItem>, listing: seq<IndexedDocument>, w: World)
    requires RowsFor(s, items, listing) && Sound(s.cache, s.server) && ExitsOk(s, items, w)
    ensures Converged(AfterSync(s, items, w)) <==>
              forall f :: f in SyncDocs(s, items) && Duplicate(f, w) ==> OnServer(f, s.server)
  {
    ExitOkConvergesIff(s, items, listing, w);
    ExitOkMeans(s, items, w);
    forall f ensures f in SyncDocs(s, items) <==> f in s.local && !UpToDate(f, s) { UploadsAre(s, items, listing, f); }
    hide AfterSync, RowsFor, ExitsOk, SyncDocs, Converged;
  }

  /** Nothing skipped either: exactly when no document was stale before. */
  lemma SuccessConvergesIff(s: State, items: seq<PickerItem>, listing: seq<IndexedDocument>, w: World)
    requires RowsFor(s, items, listing) && ReportsSuccess(s, items, w)
    ensures Converged(AfterSync(s, items, w)) <==> forall f :: f in s.local ==> !Stale(s, f)
  {
    ExitOkConvergesIff(s, items, listing, w);
    SuccessIndexesAndRecords(s, items, w);
    forall f ensures f in SyncDocs(s, items) <==> f in s.local && !UpToDate(f, s) { UploadsAre(s, items, listing, f); }
    hide AfterSync, RowsFor, ReportsSuccess, SyncDocs, Converged, Written;
  }

  lemma SuccessIndexesAndRecords(s: State, items: seq<PickerItem>, w: World)
    requires ReportsSuccess(s, items, w)
    ensures Written(SyncDocs(s, items), 0, w) == SyncDocs(s, items)
    ensures forall f :: f in SyncDocs(s, items) ==> Applied(f, w)
  {
    hide SyncDocs, SyncPlan, Written, Applied, Run;
    RunClean(NOTHING_DONE, s.cache, SyncDocs(s, items), 0, w);
  }

  /** Then the cache knows every local file. */
  lemma FileIsCached(s: State, items: seq<PickerItem>, listing: seq<IndexedDocument>, w: World, f: DocFile)
    requires RowsFor(s, items, listing) && ReportsSuccess(s, items, w) && f in s.local
    ensures var s' := AfterSync(s, items, w); f.path in s'.cache && s'.cache[f.path].sha == f.sha
  {
    SuccessIndexesAndRecords(s, items, w);
    UploadsAre(s, items, listing, f);
    AfterSyncAt(s, items, listing, w, f.path);
    WalkFinds(s.local, f);
    hide AfterSync, Written, Applied, SyncDocs, RowsFor, ReportsSuccess;
  }

  /** From a sound cache, a sync that reports success has made the server equal to the local
      documents, and has left a sound cache that knows every one of them. */
  lemma SuccessMeansConverged(s: State, items: seq<PickerItem>, listing: seq<IndexedDocument>, w: World)
    requires RowsFor(s, items, listing) && Sound(s.cache, s.server) && ReportsSuccess(s, items, w)
    ensures var s' := AfterSync(s, items, w);
            && Converged(s') && Sound(s'.cache, s'.server)
            && (forall f :: f in s.local ==> f.path in s'.cache && s'.cache[f.path].sha == f.sha)
  {
    forall f ensures !Stale(s, f) {}
    SyncKeepsLocal(s, items, w);
    hide AfterSync, RowsFor, ReportsSuccess, Stale;
    SuccessConvergesIff(s, items, listing, w);
    var s' := AfterSync(s, items, w);
    forall f | f in s.local ensures f.path in s'.cache && s'.cache[f.path].sha == f.sha {
      FileIsCached(s, items, listing, w, f);
    }
    forall p | p in s'.cache && p in s'.server ensures s'.cache[p].sha == s'.server[p].sha {
      var f :| f in s.local && f.path == p;
    }
  }

  lemma SyncKeepsLocal(s: State, items: seq<PickerItem>, w: World)
    ensures AfterSync(s, items, w).local == s.local
  {
  }

  lemma ConvergedRowIsKept(s: State, items: seq<PickerItem>, listing: seq<IndexedDocument>, it: PickerItem)
    requires RowsFor(s, items, listing) && Converged(s) && it in items
    requires forall f :: f in s.local ==> f.path in s.cache && s.cache[f.path].sha == f.sha
    ensures BucketOf(SelectedForSync(it), s.cache) == Keep
  {
    LocalHas(s.local, it.path);
    assert Known(it.path, s.local, listing);
    assert FindServer(listing, it.path).Some? ==> it.path in s.server;
    hide BucketOf, MergedRow;
    RowOfFile(s, items, listing, FindLocal(s.local, it.path).value);
  }

  lemma OnlyOneBucket(rows: seq<PickerItem>, cache: Files, b: Bucket)
    requires forall it :: it in rows ==> BucketOf(it, cache) != b
    ensures Pick(rows, cache, b) == []
  {
    var picked := Pick(rows, cache, b);
    if picked != [] {
      PickHas(rows, cache, b, picked[0]);
    }
  }

  /** A sync of a converged state whose cache knows every document plans only keeps. */
  lemma SecondSyncOnlyKeeps(s: State, items: seq<PickerItem>, listing: seq<IndexedDocument>)
    requires RowsFor(s, items, listing) && Converged(s)
    requires forall f :: f in s.local ==> f.path in s.cache && s.cache[f.path].sha == f.sha
    ensures NothingToDo(SyncPlan(s, items)) && |SyncPlan(s, items).toKeep| == |items|
  {
    var rows := SelectedRows(items);
    forall it | it in rows ensures BucketOf(it, s.cache) == Keep {
      var i :| 0 <= i < |rows| && rows[i] == it;
      ConvergedRowIsKept(s, items, listing, items[i]);
    }
    hide BucketOf, SelectedRows, RowsFor, Converged, Pick;
    OnlyOneBucket(rows, s.cache, Insertion);
    OnlyOneBucket(rows, s.cache, ReUpload);
    OnlyOneBucket(rows, s.cache, Deletion);
    OnlyOneBucket(rows, s.cache, NoEffect);
    PlanLengths(rows, s.cache);
  }

  /** There is nothing to do exactly when every local file is up to date and nothing else is indexed. */
  lemma NothingToDoIff(s: State, items: seq<PickerItem>, listing: seq<IndexedDocument>)
    requires RowsFor(s, items, listing)
    ensures NothingToDo(SyncPlan(s, items)) <==>
              && (forall f :: f in s.local ==> UpToDate(f, s))
              && (forall p :: p in s.server ==> WalkHas(s.local, p))
  {
    var plan := SyncPlan(s, items);
    forall f ensures f in SyncDocs(s, items) <==> f in s.local && !UpToDate(f, s) { UploadsAre(s, items, listing, f); }
    forall p ensures PlanHas(plan.toDelete, p) <==> p in s.server && !WalkHas(s.local, p) {
      DeletesAre(s, items, listing, p);
      LocalHas(s.local, p);
    }
    UploadsOfEmptyPlan(plan);
    if plan.toInsert + plan.toReUpload != [] {
      SomethingToUpload(s, items, listing);
    }
    if plan.toDelete != [] {
      assert PlanHas(plan.toDelete, plan.toDelete[0].path);
    }
    hide SyncPlan, RowsFor, UpToDate, WalkHas;
  }

  lemma UploadsOfEmptyPlan(plan: Plan)
    ensures plan.toInsert + plan.toReUpload == [] <==> plan.toInsert == [] && plan.toReUpload == []
    ensures plan.toInsert + plan.toReUpload == [] ==> UploadsOfPlan(plan) == []
  {
  }

  /** Every row that the plan inserts or uploads again has its file. */
  lemma SomethingToUpload(s: State, items: seq<PickerItem>, listing: seq<IndexedDocument>)
    requires RowsFor(s, items, listing)
    requires SyncPlan(s, items).toInsert + SyncPlan(s, items).toReUpload != []
    ensures exists f :: f in SyncDocs(s, items)
  {
    var rows, plan := SelectedRows(items), SyncPlan(s, items);
    var it := (plan.toInsert + plan.toReUpload)[0];
    assert it in plan.toInsert + plan.toReUpload;
    PickHas(rows, s.cache, Insertion, it);
    PickHas(rows, s.cache, ReUpload, it);
    assert it.HasLocal();
    WalkerDocsHas(plan.toInsert + plan.toReUpload, DocOf(it));
    assert DocOf(it) in SyncDocs(s, items);
  }

  // ---- Runs -----------------------------------------------------------------

  /** One event in the life of a working copy. */
  datatype Event = Edit(local: seq<DocFile>) | Sync(items: seq<PickerItem>, listing: seq<IndexedDocument>, w: World)

  ghost predicate Possible(s: State, e: Event) {
    match e
    case Edit(local) => IsWalk(local)
    case Sync(items, listing, _) => RowsFor(s, items, listing)
  }

  function Next(s: State, e: Event): State {
    match e
    case Edit(local) => s.(local := local)
    case Sync(items, _, w) => AfterSync(s, items, w)
  }

  ghost predicate PossibleRun(s: State, events: seq<Event>)
    decreases |events|
  {
    events == [] || (Possible(s, events[0]) && PossibleRun(Next(s, events[0]), events[1..]))
  }

  function After(s: State, events: seq<Event>): State
    decreases |events|
  {
    if events == [] then s else After(Next(s, events[0]), events[1..])
  }

  /** Every file the sync uploads is harmless. */
  ghost predicate HarmlessSync(s: State, e: Event) {
    e.Sync? ==> forall f :: f in SyncDocs(s, e.items) ==> Harmless(f, SyncDocs(s, e.items), s.cache, s.server, e.w)
  }

  ghost predicate HarmlessRun(s: State, events: seq<Event>)
    decreases |events|
  {
    events == [] || (HarmlessSync(s, events[0]) && HarmlessRun(Next(s, events[0]), events[1..]))
  }

  ghost predicate SoundThroughout(s: State, events: seq<Event>)
    decreases |events|
  {
    Sound(s.cache, s.server) && (events == [] || SoundThroughout(Next(s, events[0]), events[1..]))
  }

  /** Over every run of edits and syncs from a sound cache: the cache stays sound throughout
      exactly when every sync of the run was harmless. */
  lemma {:induction false} RunSoundIff(s: State, events: seq<Event>)
    requires Sound(s.cache, s.server) && IsWalk(s.local) && PossibleRun(s, events)
    ensures SoundThroughout(s, events) <==> HarmlessRun(s, events)
    decreases |events|
  {
    hide AfterSync, Harmless, SyncDocs, RowsFor;
    if events != [] {
      var e, s' := events[0], Next(s, events[0]);
      if e.Sync? {
        SyncSoundIff(s, e.items, e.listing, e.w);
      }
      NextKeepsWalk(s, e);
      if Sound(s'.cache, s'.server) {
        RunSoundIff(s', events[1..]);
      }
    }
  }

  lemma NextKeepsWalk(s: State, e: Event)
    requires IsWalk(s.local) && Possible(s, e)
    ensures IsWalk(Next(s, e).local)
  {
  }

  /** A world in which every sync is harmless: the user waits, no reply and no poll is lost,
      and every document that reaches the server is indexed.  Unreadable and oversized files
      and refused deletes are allowed. */
  ghost predicate Benign(w: World) {
    && !w.noWait
    && (forall k :: !w.lost(k) && !w.pollFails(k))
    && (forall p :: w.fate(p).Indexed?)
  }

  lemma {:induction false} AllJobs(uploads: seq<DocumentUpload>, fate: string -> Fate)
    requires forall p :: fate(p).Indexed?
    ensures |JobsFor(uploads, fate)| == |uploads|
  {
    if uploads != [] {
      AllJobs(uploads[..|uploads| - 1], fate);
    }
  }

  lemma {:induction false} BenignWritesWhatItApplies(docs: seq<DocFile>, k: nat, w: World, f: DocFile)
    requires Benign(w)
    ensures f in Written(docs, k, w) <==> f in docs && Applied(f, w)
    decreases |docs|
  {
    if docs != [] {
      hide ChunkWritten, Applied, Benign;
      var m := Min(UPLOAD_BATCH_SIZE, |docs|);
      BenignChunk(docs[..m], k, w, f);
      BenignWritesWhatItApplies(docs[m..], k + 1, w, f);
      assert docs == docs[..m] + docs[m..];
    }
  }

  lemma BenignChunk(chunk: seq<DocFile>, k: nat, w: World, f: DocFile)
    requires Benign(w)
    ensures f in ChunkWritten(chunk, k, w) <==> f in chunk && Applied(f, w)
  {
    hide Kept, JobsFor;
    var kept := Kept(chunk, EnvOf(w));
    AllJobs(UploadsOf(kept, EnvOf(w)), w.fate);
    assert kept[..|kept|] == kept;
    KeptIsSubset(chunk, EnvOf(w), f);
  }

  /** A run that is sound throughout ends in a sound state. */
  lemma {:induction false} SoundAtTheEnd(s: State, events: seq<Event>)
    requires IsWalk(s.local) && PossibleRun(s, events) && SoundThroughout(s, events)
    ensures Sound(After(s, events).cache, After(s, events).server) && IsWalk(After(s, events).local)
    decreases |events|
  {
    if events != [] {
      NextKeepsWalk(s, events[0]);
      hide Next, Possible;
      SoundAtTheEnd(Next(s, events[0]), events[1..]);
    }
  }

  /** After any run of edits and harmless syncs from a sound cache, whatever was refused, lost
      or not waited for on the way, one more sync that reports success makes the server equal
      to the local documents, and a sync right after that one plans only keeps. */
  lemma HarmlessRunsConverge(s: State, events: seq<Event>, items: seq<PickerItem>, listing: seq<IndexedDocument>,
                             w: World,
                             again: seq<PickerItem>, relisting: seq<IndexedDocument>)
    requires Sound(s.cache, s.server) && IsWalk(s.local) && PossibleRun(s, events) && HarmlessRun(s, events)
    requires RowsFor(After(s, events), items, listing) && ReportsSuccess(After(s, events), items, w)
    requires RowsFor(AfterSync(After(s, events), items, w), again, relisting)
    ensures var s' := AfterSync(After(s, events), items, w);
            Converged(s') && NothingToDo(SyncPlan(s', again)) && |SyncPlan(s', again).toKeep| == |again|
  {
    hide AfterSync, SyncPlan, RowsFor, ReportsSuccess, HarmlessRun, Converged;
    RunSoundIff(s, events);
    SoundAtTheEnd(s, events);
    var t := After(s, events);
    SuccessMeansConverged(t, items, listing, w);
    SyncKeepsLocal(t, items, w);
    SecondSyncOnlyKeeps(AfterSync(t, items, w), again, relisting);
  }

  /** With skipped documents allowed: after any run of edits and harmless syncs, a sync with exit
      code zero converges exactly when each document refused as a duplicate was already there
      under its own path, and the next sync has nothing to do exactly when all files are then
      up to date. */
  lemma HarmlessRunsExitOk(s: State, events: seq<Event>, items: seq<PickerItem>, listing: seq<IndexedDocument>,
                           w: World,
                           again: seq<PickerItem>, relisting: seq<IndexedDocument>)
    requires Sound(s.cache, s.server) && IsWalk(s.local) && PossibleRun(s, events) && HarmlessRun(s, events)
    requires RowsFor(After(s, events), items, listing) && ExitsOk(After(s, events), items, w)
    requires RowsFor(AfterSync(After(s, events), items, w), again, relisting)
    ensures var t := After(s, events);
            var s' := AfterSync(t, items, w);
            && (Converged(s') <==> forall f :: f in SyncDocs(t, items) && Duplicate(f, w) ==> OnServer(f, t.server))
            && (NothingToDo(SyncPlan(s', again)) <==> forall f :: f in s'.local ==> UpToDate(f, s'))
  {
    hide AfterSync, SyncPlan, SyncDocs, RowsFor, ExitsOk, HarmlessRun, Converged, UpToDate;
    RunSoundIff(s, events);
    SoundAtTheEnd(s, events);
    var t := After(s, events);
    var s' := AfterSync(t, items, w);
    SoundExitOkConvergesIff(t, items, listing, w);
    SyncKeepsLocal(t, items, w);
    NothingToDoIff(s', again, relisting);
    forall p | p in s'.server ensures WalkHas(s'.local, p) { ServerAfterExitOk(t, items, listing, w, p); }
  }

  /** Benign worlds are a case of this. */
  lemma {:induction false} BenignRunsAreHarmless(s: State, events: seq<Event>)
    requires Sound(s.cache, s.server) && IsWalk(s.local) && PossibleRun(s, events)
    requires forall e :: e in events && e.Sync? ==> Benign(e.w)
    ensures HarmlessRun(s, events)
    decreases |events|
  {
    if events != [] {
      var e := events[0];
      if e.Sync? {
        forall f | f in SyncDocs(s, e.items) { BenignWritesWhatItApplies(SyncDocs(s, e.items), 0, e.w, f); }
        SyncSoundIff(s, e.items, e.listing, e.w);
      }
      hide AfterSync, RowsFor, SyncDocs, Written, Benign;
      NextKeepsWalk(s, e);
      BenignRunsAreHarmless(Next(s, e), events[1..]);
    }
  }

  /** Runs of edits and benign syncs keep the cache sound. */
  lemma BenignRunsStaySound(s: State, events: seq<Event>)
    requires Sound(s.cache, s.server) && IsWalk(s.local) && PossibleRun(s, events)
    requires forall e :: e in events && e.Sync? ==> Benign(e.w)
    ensures SoundThroughout(s, events)
    ensures Sound(After(s, events).cache, After(s, events).server) && IsWalk(After(s, events).local)
  {
    hide After, Benign, HarmlessRun;
    BenignRunsAreHarmless(s, events);
    RunSoundIff(s, events);
    SoundAtTheEnd(s, events);
  }

  /** So they converge, unreadable files and refused deletes included. */
  lemma BenignRunsConverge(s: State, events: seq<Event>, items: seq<PickerItem>, listing: seq<IndexedDocument>,
                           w: World,
                           again: seq<PickerItem>, relisting: seq<IndexedDocument>)
    requires Sound(s.cache, s.server) && IsWalk(s.local) && PossibleRun(s, events)
    requires forall e :: e in events && e.Sync? ==> Benign(e.w)
    requires RowsFor(After(s, events), items, listing) && ReportsSuccess(After(s, events), items, w)
    requires RowsFor(AfterSync(After(s, events), items, w), again, relisting)
    ensures var s' := AfterSync(After(s, events), items, w);
            Converged(s') && NothingToDo(SyncPlan(s', again)) && |SyncPlan(s', again).toKeep| == |again|
  {
    hide AfterSync, SyncPlan, RowsFor, ReportsSuccess, Benign, HarmlessRun, Converged;
    BenignRunsAreHarmless(s, events);
    HarmlessRunsConverge(s, events, items, listing, w, again, relisting);
  }

  // ---- Where the code does not keep the cache sound -------------------------

  /** A stale document is never repaired: no sync, in any world, changes it again. */
  lemma {:induction false} StaleForever(s: State, events: seq<Event>, f: DocFile)
    requires PossibleRun(s, events) && Stale(s, f)
    requires forall e :: e in events ==> e.Edit? ==> f in e.local
    ensures Stale(After(s, events), f)
    decreases |events|
  {
    if events != [] {
      var e := events[0];
      if e.Sync? {
        UploadsAre(s, e.items, e.listing, f);
        AfterSyncAt(s, e.items, e.listing, e.w, f.path);
        WrittenAreUploads(s, e.items, e.listing, e.w, f);
        WalkFinds(s.local, f);
      }
      hide AfterSync, RowsFor, SyncDocs, Written;
      StaleForever(Next(s, e), events[1..], f);
    }
  }

  lemma WrittenAreUploads(s: State, items: seq<PickerItem>, listing: seq<IndexedDocument>, w: World, f: DocFile)
    requires RowsFor(s, items, listing)
    ensures f in Written(SyncDocs(s, items), 0, w) ==> f in SyncDocs(s, items)
  {
    UploadsAreDistinct(s, items, listing);
    RunOverwrites(NOTHING_DONE, s.cache, SyncDocs(s, items), 0, w);
  }

  /** A document whose content the server knows under another path only is not indexed, and the
      next sync uploads it once more. */
  lemma DuplicateIsUploadedAgain(s: State, items: seq<PickerItem>, listing: seq<IndexedDocument>, w: World, f: DocFile,
                                 again: seq<PickerItem>, relisting: seq<IndexedDocument>)
    requires RowsFor(s, items, listing) && f in SyncDocs(s, items) && Duplicate(f, w) && f.path !in s.server
    requires RowsFor(AfterSync(s, items, w), again, relisting)
    ensures var s' := AfterSync(s, items, w); f.path !in s'.server && f in SyncDocs(s', again)
  {
    UploadsAre(s, items, listing, f);
    AfterSyncAt(s, items, listing, w, f.path);
    WalkFinds(s.local, f);
    SyncKeepsLocal(s, items, w);
    UploadsAre(AfterSync(s, items, w), again, relisting, f);
    hide AfterSync, SyncDocs, RowsFor, Written;
  }

  lemma OnlyFile(docs: seq<DocFile>, f: DocFile)
    requires DistinctPaths(docs) && forall g :: g in docs <==> g == f
    ensures docs == [f]
  {
    assert f in docs;
    forall i | 0 <= i < |docs| ensures docs[i] == f { assert docs[i] in docs; }
    assert |docs| > 1 ==> docs[0].path == docs[1].path;
  }

  lemma NewFileRows(f: DocFile)
    requires f.abs != ""
    ensures var s, items := State([f], map[], map[]), [MergedRow(f.path, [f], [])];
            RowsFor(s, items, []) && SyncDocs(s, items) == [f] && SyncPlan(s, items).toDelete == []
  {
    var s, row := State([f], map[], map[]), MergedRow(f.path, [f], []);
    var items := [row];
    WalkFinds([f], f);
    assert row.path == f.path && row in items;
    assert RowsFor(s, items, []);
    var docs := SyncDocs(s, items);
    forall g ensures g in docs <==> g == f { UploadsAre(s, items, [], g); }
    UploadsAreDistinct(s, items, []);
    OnlyFile(docs, f);
    forall p ensures !PlanHas(SyncPlan(s, items).toDelete, p) { DeletesAre(s, items, [], p); }
    if SyncPlan(s, items).toDelete != [] {
      assert PlanHas(SyncPlan(s, items).toDelete, SyncPlan(s, items).toDelete[0].path);
    }
  }

  /** Exit code zero without convergence, from a sound cache: the only file of the repository is
      refused as a duplicate, and the server stays empty. */
  lemma DuplicateExitsZero(f: DocFile, w: World)
    requires f.abs != "" && Readable(f, EnvOf(w)) && Duplicate(f, w) && !w.noWait && !w.lost(0)
    ensures var s, items := State([f], map[], map[]), [MergedRow(f.path, [f], [])];
            && RowsFor(s, items, []) && Sound(s.cache, s.server) && ExitsOk(s, items, w)
            && AfterSync(s, items, w).server == map[] && !Converged(AfterSync(s, items, w))
  {
    var s, items := State([f], map[], map[]), [MergedRow(f.path, [f], [])];
    NewFileRows(f);
    hide SyncDocs, SyncPlan, RowsFor;
    OneDuplicateRun(f, w);
    assert [f][..0] == [];
    assert AfterUploads(s.server, [f], w) == map[];
  }

  lemma OneDuplicateReply(uploads: seq<DocumentUpload>, fate: string -> Fate, res: Result)
    requires |uploads| == 1 && fate(uploads[0].name) == Rejected(BENIGN)
    ensures JobsFor(uploads, fate) == []
    ensures Classified(res, FailuresFor(uploads, fate)).failed == res.failed
  {
    assert uploads[..0] == [];
    var failures := FailuresFor(uploads, fate);
    NoFailuresCounted(res, failures);
    hide Classified;
  }

  lemma OneDuplicateChunk(f: DocFile, w: World)
    requires Readable(f, EnvOf(w)) && Duplicate(f, w) && !w.noWait && !w.lost(0)
    ensures var (r, c) := ChunkRun(NOTHING_DONE, map[], [f], 0, EnvOf(w)); r.failed == 0 && c == map[]
  {
    assert [f][..0] == [];
    assert Kept([f], EnvOf(w)) == [f];
    hide Kept, JobsFor, FailuresFor, FailedIngestions, CompletedCount, Classified, Readable;
    OneDuplicateReply(UploadsOf([f], EnvOf(w)), w.fate, NOTHING_DONE.(batchIds := NOTHING_DONE.batchIds + ["batch"]));
  }

  lemma OneDuplicateRun(f: DocFile, w: World)
    requires Readable(f, EnvOf(w)) && Duplicate(f, w) && !w.noWait && !w.lost(0)
    ensures Run(NOTHING_DONE, map[], [f], 0, EnvOf(w)).0.failed == 0
    ensures Run(NOTHING_DONE, map[], [f], 0, EnvOf(w)).1 == map[]
  {
    OneDuplicateChunk(f, w);
    hide ChunkRun, Duplicate, Readable;
    assert [f][..1] == [f] && [f][1..] == [];
  }

  /** A changed document whose job the server accepts and then fails to ingest turns stale:
      the cache entry is written from the acknowledgement, before the outcome is known. */
  lemma FailedIngestionTurnsStale(s: State, items: seq<PickerItem>, listing: seq<IndexedDocument>, w: World, f: DocFile)
    requires RowsFor(s, items, listing)
    requires f in Written(SyncDocs(s, items), 0, w) && w.fate(f.path).IngestFailed?
    requires f.path in s.server && s.server[f.path].sha != f.sha
    ensures Stale(AfterSync(s, items, w), f)
  {
    WrittenAreUploads(s, items, listing, w, f);
    UploadsAre(s, items, listing, f);
    WalkFinds(s.local, f);
    AfterSyncAt(s, items, listing, w, f.path);
  }

  /** Without waiting, an indexed change is not recorded; restoring the cached version of the
      file afterwards leaves it stale. */
  lemma NoWaitThenRevertTurnsStale(s: State, items: seq<PickerItem>, listing: seq<IndexedDocument>, w: World,
                                   f: DocFile, restored: DocFile, local: seq<DocFile>)
    requires RowsFor(s, items, listing) && w.noWait
    requires f in SyncDocs(s, items) && Applied(f, w)
    requires f.path in s.cache && s.cache[f.path].sha != f.sha
    requires restored in local && restored.path == f.path && restored.sha == s.cache[f.path].sha
    ensures Stale(Next(AfterSync(s, items, w), Edit(local)), restored)
  {
    UploadsAre(s, items, listing, f);
    WalkFinds(s.local, f);
    AfterSyncAt(s, items, listing, w, f.path);
    NoWaitWritesNothing(SyncDocs(s, items), 0, w);
  }

  lemma {:induction false} NoWaitWritesNothing(docs: seq<DocFile>, k: nat, w: World)
    requires w.noWait
    ensures Written(docs, k, w) == []
    decreases |docs|
  {
    if docs != [] {
      NoWaitWritesNothing(docs[Min(UPLOAD_BATCH_SIZE, |docs|)..], k + 1, w);
    }
  }

  lemma KeptPair(a: DocFile, b: DocFile, env: Env)
    requires Readable(a, env) && Readable(b, env)
    ensures Kept([a, b], env) == [a, b]
  {
    hide Readable;
    assert [a, b][..1] == [a] && [a][..0] == [];
    assert Kept([a], env) == [a];
  }

  lemma OneJobOfTwo(uploads: seq<DocumentUpload>, fate: string -> Fate)
    requires |uploads| == 2 && fate(uploads[0].name).Rejected? && fate(uploads[1].name).Indexed?
    ensures |JobsFor(uploads, fate)| == 1
  {
    assert uploads[..1][..0] == [];
    assert JobsFor(uploads[..1], fate) == [];
  }

  /** Jobs are matched to files by position, so a refused file shifts them: here the refused
      first file gets the entry, and the indexed second one gets none. */
  lemma RefusalShiftsEntries(a: DocFile, b: DocFile, w: World)
    requires a.path != b.path && !w.noWait && !w.lost(0) && !w.pollFails(0)
    requires Readable(a, EnvOf(w)) && Readable(b, EnvOf(w))
    requires w.fate(a.path).Rejected? && w.fate(b.path).Indexed?
    ensures Written([a, b], 0, w) == [a] && !Applied(a, w) && Applied(b, w)
  {
    KeptPair(a, b, EnvOf(w));
    OneJobOfTwo(UploadsOf([a, b], EnvOf(w)), w.fate);
    hide Kept, JobsFor, Readable;
    assert [a, b][..2] == [a, b] && [a, b][2..] == [] && [a, b][..1] == [a];
    assert ChunkWritten([a, b], 0, w) == [a];
    hide ChunkWritten;
    assert Written([a, b], 0, w) == ChunkWritten([a, b], 0, w) + Written([], 1, w);
  }
}
