/** The document half of `browzer sync` (internal/commands/workspace_sync.go) against a
    server that indexes documents by path: which hashes the local cache may hold, and what
    whole runs of edits and syncs do to the server. */
module SyncRuns {
  import opened Options
  import opened DocPlan
  import opened Upload

  // ---- The world around one sync --------------------------------------------

  /** `sha` stands for the content that is indexed. */
  datatype ServerDoc = ServerDoc(id: string, sha: string)

  type Server = map<string, ServerDoc>

  /** What the server does with one uploaded document: index it, accept it and then fail to
      ingest it, or refuse it in the acknowledgement. */
  datatype Fate = Indexed(id: string) | IngestFailed(id: string) | Rejected(reason: string)

  datatype DeleteOutcome = Deleted | Refused | DeletedButReportedFailed

  /** `lost`: the reply to the k-th chunk never arrives, whatever the server did with it. */
  datatype World = World(
    disk: string -> Option<string>,
    fate: string -> Fate,
    lost: nat -> bool,
    pollFails: nat -> bool,
    noWait: bool,
    deletes: string -> DeleteOutcome)

  function JobsFor(uploads: seq<DocumentUpload>, fate: string -> Fate): (jobs: seq<Job>)
    ensures |jobs| <= |uploads|
  {
    if uploads == [] then []
    else
      var n := |uploads| - 1;
      JobsFor(uploads[..n], fate) +
      match fate(uploads[n].name)
      case Rejected(_) => []
      case Indexed(id) => [Job(id)]
      case IngestFailed(id) => [Job(id)]
  }

  function FailuresFor(uploads: seq<DocumentUpload>, fate: string -> Fate): seq<Failure> {
    if uploads == [] then []
    else
      var n := |uploads| - 1;
      FailuresFor(uploads[..n], fate) +
      if fate(uploads[n].name).Rejected? then [Failure(uploads[n].name, fate(uploads[n].name).reason)] else []
  }

  function FailedIngestions(uploads: seq<DocumentUpload>, fate: string -> Fate): seq<string> {
    if uploads == [] then []
    else
      var n := |uploads| - 1;
      FailedIngestions(uploads[..n], fate) + if fate(uploads[n].name).IngestFailed? then [uploads[n].name] else []
  }

  function CompletedCount(uploads: seq<DocumentUpload>, fate: string -> Fate): nat {
    if uploads == [] then 0
    else
      var n := |uploads| - 1;
      CompletedCount(uploads[..n], fate) + if fate(uploads[n].name).Indexed? then 1 else 0
  }

  /** The replies of a server that accounts for every upload once: one job per accepted
      document, in upload order, one failure per refused one, and a truthful poll. */
  function EnvOf(w: World): Env {
    Env(w.disk,
        (k: nat, uploads: seq<DocumentUpload>) =>
          if w.lost(k) then HttpError else Async("batch", JobsFor(uploads, w.fate), FailuresFor(uploads, w.fate)),
        (k: nat, uploads: seq<DocumentUpload>) =>
          if w.pollFails(k) then PollError
          else
            var failed := FailedIngestions(uploads, w.fate);
            Finished(CompletedCount(uploads, w.fate), |failed|, failed),
        w.noWait)
  }

  // ---- Counting -------------------------------------------------------------

  lemma {:induction false} RepliesAddUp(uploads: seq<DocumentUpload>, fate: string -> Fate)
    ensures |JobsFor(uploads, fate)| + |FailuresFor(uploads, fate)| == |uploads|
    ensures CompletedCount(uploads, fate) + |FailedIngestions(uploads, fate)| == |JobsFor(uploads, fate)|
  {
    if uploads != [] {
      RepliesAddUp(uploads[..|uploads| - 1], fate);
    }
  }

  lemma {:induction false} ClassifiedAddsAll(res: Result, failures: seq<Failure>)
    ensures Classified(res, failures).Total() == res.Total() + |failures|
    ensures Classified(res, failures).uploaded == res.uploaded
  {
    if failures != [] {
      ClassifiedAddsAll(res, failures[..|failures| - 1]);
    }
  }

  /** The jobs and the refusals of one chunk as the server sees it. */
  function ChunkJobs(chunk: seq<DocFile>, w: World): seq<Job> {
    JobsFor(UploadsOf(Kept(chunk, EnvOf(w)), EnvOf(w)), w.fate)
  }

  function ChunkFailures(chunk: seq<DocFile>, w: World): seq<Failure> {
    FailuresFor(UploadsOf(Kept(chunk, EnvOf(w)), EnvOf(w)), w.fate)
  }

  /** No document of the chunk is left out of the counters or counted twice. */
  predicate ChunkCounted(chunk: seq<DocFile>, k: nat, w: World) {
    || w.lost(k)
    || ChunkJobs(chunk, w) == []
    || (!w.noWait && (w.pollFails(k) ==> ChunkFailures(chunk, w) == []))
  }

  predicate AllCounted(docs: seq<DocFile>, k: nat, w: World)
    decreases |docs|
  {
    docs == [] ||
    var m := Min(UPLOAD_BATCH_SIZE, |docs|);
    ChunkCounted(docs[..m], k, w) && AllCounted(docs[m..], k + 1, w)
  }

  lemma ChunkTotal(res: Result, files: Files, chunk: seq<DocFile>, k: nat, w: World)
    ensures var total := ChunkRun(res, files, chunk, k, EnvOf(w)).0.Total() - res.Total();
            && (w.noWait ==> total <= |chunk|)
            && (!w.noWait ==> total >= |chunk|)
            && (total == |chunk| <==> ChunkCounted(chunk, k, w))
  {
    hide Kept, JobsFor, FailuresFor, FailedIngestions, CompletedCount, Classified;
    var env := EnvOf(w);
    var kept := Kept(chunk, env);
    var uploads := UploadsOf(kept, env);
    KeptIsShorter(chunk, env);
    RepliesAddUp(uploads, w.fate);
    var unread := res.(failed := res.failed + (|chunk| - |kept|));
    ClassifiedAddsAll(unread.(batchIds := unread.batchIds + ["batch"]), FailuresFor(uploads, w.fate));
  }

  /** uploaded + failed + skipped is the number of files exactly when every chunk was lost
      as a whole, refused as a whole, or waited for without a failing poll after a partial
      refusal. */
  lemma {:induction false} TotalsAddUpIff(res: Result, files: Files, docs: seq<DocFile>, k: nat, w: World)
    ensures var total := Run(res, files, docs, k, EnvOf(w)).0.Total() - res.Total();
            && (w.noWait ==> total <= |docs|)
            && (!w.noWait ==> total >= |docs|)
            && (total == |docs| <==> AllCounted(docs, k, w))
    decreases |docs|
  {
    if docs != [] {
      hide ChunkRun, ChunkCounted;
      var m := Min(UPLOAD_BATCH_SIZE, |docs|);
      ChunkTotal(res, files, docs[..m], k, w);
      var (r, c) := ChunkRun(res, files, docs[..m], k, EnvOf(w));
      TotalsAddUpIff(r, c, docs[m..], k + 1, w);
    }
  }

  // ---- What a run writes into the cache and onto the server -----------------

  /** The files whose cache entry the run writes. */
  function Written(docs: seq<DocFile>, k: nat, w: World): seq<DocFile>
    decreases |docs|
  {
    if docs == [] then []
    else
      var m := Min(UPLOAD_BATCH_SIZE, |docs|);
      ChunkWritten(docs[..m], k, w) + Written(docs[m..], k + 1, w)
  }

  function ChunkWritten(chunk: seq<DocFile>, k: nat, w: World): seq<DocFile> {
    if w.lost(k) || w.noWait || w.pollFails(k) then [] else Kept(chunk, EnvOf(w))[..|ChunkJobs(chunk, w)|]
  }

  /** The server indexes the file. */
  predicate Applied(f: DocFile, w: World) {
    Readable(f, EnvOf(w)) && w.fate(f.path).Indexed?
  }

  function AfterUploads(server: Server, docs: seq<DocFile>, w: World): Server {
    if docs == [] then server
    else
      var n := |docs| - 1;
      var before, f := AfterUploads(server, docs[..n], w), docs[n];
      if Applied(f, w) then before[f.path := ServerDoc(w.fate(f.path).id, f.sha)] else before
  }

  /** The entries of `files` are those of `before`, except that each of `written` has its own hash. */
  ghost predicate Overwrites(before: Files, after: Files, written: seq<DocFile>) {
    && (forall f :: f in written ==> f.path in after && after[f.path].sha == f.sha)
    && (forall p :: !WalkHas(written, p) ==> (p in after <==> p in before))
    && (forall p :: !WalkHas(written, p) && p in after ==> after[p] == before[p])
  }

  lemma {:induction false} JobsOverwrite(files: Files, kept: seq<DocFile>, jobs: seq<Job>, n: nat)
    requires n <= |kept| && n <= |jobs| && DistinctPaths(kept)
    ensures Overwrites(files, WithJobs(files, kept, jobs, n), kept[..n])
  {
    if n > 0 {
      JobsOverwrite(files, kept, jobs, n - 1);
      var last := kept[n - 1];
      assert kept[..n] == kept[..n - 1] + [last];
      forall p ensures WalkHas(kept[..n], p) <==> WalkHas(kept[..n - 1], p) || p == last.path {
        assert last in kept[..n];
      }
    }
  }

  lemma {:induction false} KeptDistinct(chunk: seq<DocFile>, env: Env)
    requires DistinctPaths(chunk)
    ensures DistinctPaths(Kept(chunk, env))
  {
    if chunk != [] {
      var n := |chunk| - 1;
      KeptDistinct(chunk[..n], env);
      forall f | f in Kept(chunk[..n], env) ensures f.path != chunk[n].path {
        KeptIsSubset(chunk[..n], env, f);
      }
    }
  }

  lemma ChunkOverwrites(res: Result, files: Files, chunk: seq<DocFile>, k: nat, w: World)
    requires DistinctPaths(chunk)
    ensures Overwrites(files, ChunkRun(res, files, chunk, k, EnvOf(w)).1, ChunkWritten(chunk, k, w))
    ensures forall f :: f in ChunkWritten(chunk, k, w) ==> f in chunk
  {
    hide Kept, JobsFor, WithJobs, Classified, FailuresFor;
    var env := EnvOf(w);
    var kept := Kept(chunk, env);
    var jobs := ChunkJobs(chunk, w);
    KeptDistinct(chunk, env);
    JobsOverwrite(files, kept, jobs, |jobs|);
    JobsOverwrite(files, kept, jobs, 0);
    assert WithJobs(files, kept, jobs, 0) == files;
    forall f | f in kept ensures f in chunk { KeptIsSubset(chunk, env, f); }
  }

  lemma OverwritesCompose(a: Files, b: Files, c: Files, first: seq<DocFile>, second: seq<DocFile>)
    requires Overwrites(a, b, first) && Overwrites(b, c, second)
    requires forall f, g :: f in first && g in second ==> f.path != g.path
    ensures Overwrites(a, c, first + second)
  {
    forall p ensures WalkHas(first + second, p) <==> WalkHas(first, p) || WalkHas(second, p) {
      if WalkHas(first, p) {
        var f :| f in first && f.path == p;
        assert f in first + second;
      }
      if WalkHas(second, p) {
        var f :| f in second && f.path == p;
        assert f in first + second;
      }
    }
  }

  /** The cache after a run, path by path. */
  lemma {:induction false} RunOverwrites(res: Result, files: Files, docs: seq<DocFile>, k: nat, w: World)
    requires DistinctPaths(docs)
    ensures Overwrites(files, Run(res, files, docs, k, EnvOf(w)).1, Written(docs, k, w))
    ensures forall f :: f in Written(docs, k, w) ==> f in docs
    decreases |docs|
  {
    if docs != [] {
      var m := Min(UPLOAD_BATCH_SIZE, |docs|);
      assert docs == docs[..m] + docs[m..];
      ChunkOverwrites(res, files, docs[..m], k, w);
      hide ChunkRun, Overwrites, ChunkWritten;
      var (r, c) := ChunkRun(res, files, docs[..m], k, EnvOf(w));
      RunOverwrites(r, c, docs[m..], k + 1, w);
      OverwritesCompose(files, c, Run(r, c, docs[m..], k + 1, EnvOf(w)).1,
                        ChunkWritten(docs[..m], k, w), Written(docs[m..], k + 1, w));
    }
  }

  /** The server after a run, path by path. */
  lemma {:induction false} ServerAfterUploads(server: Server, docs: seq<DocFile>, w: World)
    requires DistinctPaths(docs)
    ensures var after := AfterUploads(server, docs, w);
            && (forall f :: f in docs && Applied(f, w) ==> f.path in after && after[f.path].sha == f.sha)
            && (forall p :: (forall f :: f in docs && Applied(f, w) ==> f.path != p) ==>
                  (p in after <==> p in server) && (p in after ==> after[p] == server[p]))
  {
    if docs != [] {
      var n := |docs| - 1;
      ServerAfterUploads(server, docs[..n], w);
      assert docs == docs[..n] + [docs[n]];
      hide Applied;
    }
  }

  // ---- Cache soundness ------------------------------------------------------

  /** Wherever both know a path, the cached hash is the hash the server indexed. */
  ghost predicate Sound(cache: Files, server: Server) {
    forall p :: p in cache && p in server ==> cache[p].sha == server[p].sha
  }

  /** Recorded but not indexed is harmless only if the server knows no other content of the
      path; indexed but not recorded is harmless only if the cache knows no other one. */
  predicate Harmless(f: DocFile, docs: seq<DocFile>, cache: Files, server: Server, w: World) {
    && (f in Written(docs, 0, w) && !Applied(f, w) ==> f.path !in server || server[f.path].sha == f.sha)
    && (Applied(f, w) && f !in Written(docs, 0, w) ==> f.path !in cache || cache[f.path].sha == f.sha)
  }

  /** One uploaded file after the run. */
  lemma HarmlessIffAgrees(cache: Files, server: Server, docs: seq<DocFile>, w: World, f: DocFile)
    requires Sound(cache, server) && DistinctPaths(docs) && f in docs
    ensures var cache', server' := Run(NOTHING_DONE, cache, docs, 0, EnvOf(w)).1, AfterUploads(server, docs, w);
            Harmless(f, docs, cache, server, w) <==>
              (f.path in cache' && f.path in server' ==> cache'[f.path].sha == server'[f.path].sha)
  {
    RunOverwrites(NOTHING_DONE, cache, docs, 0, w);
    ServerAfterUploads(server, docs, w);
    hide Run, AfterUploads, Written, Applied;
    forall g | g in docs && g.path == f.path ensures g == f {}
    assert WalkHas(Written(docs, 0, w), f.path) <==> f in Written(docs, 0, w);
    hide DistinctPaths;
  }

  /** Any other path after the run. */
  lemma OthersAgree(cache: Files, server: Server, docs: seq<DocFile>, w: World, p: string)
    requires Sound(cache, server) && DistinctPaths(docs) && forall f :: f in docs ==> f.path != p
    ensures var cache', server' := Run(NOTHING_DONE, cache, docs, 0, EnvOf(w)).1, AfterUploads(server, docs, w);
            p in cache' && p in server' ==> cache'[p].sha == server'[p].sha
  {
    RunOverwrites(NOTHING_DONE, cache, docs, 0, w);
    ServerAfterUploads(server, docs, w);
    hide Run, AfterUploads, Written, Applied, DistinctPaths;
  }

  /** An upload run keeps the cache sound exactly when every uploaded file is harmless. */
  lemma UploadSoundIff(cache: Files, server: Server, docs: seq<DocFile>, w: World)
    requires Sound(cache, server) && DistinctPaths(docs)
    ensures Sound(Run(NOTHING_DONE, cache, docs, 0, EnvOf(w)).1, AfterUploads(server, docs, w))
            <==> forall f :: f in docs ==> Harmless(f, docs, cache, server, w)
  {
    hide Run, AfterUploads, Harmless, DistinctPaths;
    var cache', server' := Run(NOTHING_DONE, cache, docs, 0, EnvOf(w)).1, AfterUploads(server, docs, w);
    forall f | f in docs
      ensures Harmless(f, docs, cache, server, w) <==>
                (f.path in cache' && f.path in server' ==> cache'[f.path].sha == server'[f.path].sha)
    {
      HarmlessIffAgrees(cache, server, docs, w, f);
    }
    forall p | forall f :: f in docs ==> f.path != p
      ensures p in cache' && p in server' ==> cache'[p].sha == server'[p].sha
    {
      OthersAgree(cache, server, docs, w, p);
    }
  }
}
