/** The batch uploader of internal/upload/pipeline.go: chunks of fifty, three shapes of
    server reply, counters, and a hash cache updated in place. */
module Upload {
  import opened Options
  import opened DocPlan

  const UPLOAD_BATCH_SIZE: nat := 50
  const MAX_DOC_BYTES: int := 5 * 1024 * 1024

  datatype DocumentUpload = DocumentUpload(name: string, content: string)

  datatype Job = Job(documentId: string)

  datatype Failure = Failure(name: string, reason: string)

  datatype Ack =
    | HttpError
    | Async(batchId: string, jobs: seq<Job>, failures: seq<Failure>)
    | Inline(uploaded: map<string, string>, failed: nat)

  /** The names are those of the jobs that the poll reports as failed. */
  datatype Poll = PollError | Finished(completed: nat, failed: nat, failedNames: seq<string>)

  /** Everything outside the uploader: what a path reads as, and how the server answers
      the k-th chunk when it is sent these uploads. */
  datatype Env = Env(
    disk: string -> Option<string>,
    ack: (nat, seq<DocumentUpload>) -> Ack,
    poll: (nat, seq<DocumentUpload>) -> Poll,
    noWait: bool)

  datatype Result = Result(uploaded: nat, failed: nat, skipped: nat, batchIds: seq<string>,
                           failedNames: seq<string>, skippedNames: seq<string>)
  {
    function Total(): nat { uploaded + failed + skipped }
  }

  const NOTHING_DONE := Result(0, 0, 0, [], [], [])

  type Files = map<string, CachedDoc>

  class DocsCache {
    var Files: map<string, CachedDoc>

    constructor (files: map<string, CachedDoc>)
      ensures Files == files
    {
      Files := files;
    }
  }

  // ---- Specification of one chunk -------------------------------------------

  predicate Readable(f: DocFile, env: Env) {
    f.size <= MAX_DOC_BYTES && env.disk(f.abs).Some?
  }

  /** The files of the chunk that reach the server, in order. */
  function Kept(chunk: seq<DocFile>, env: Env): seq<DocFile> {
    if chunk == [] then []
    else
      var n := |chunk| - 1;
      Kept(chunk[..n], env) + if Readable(chunk[n], env) then [chunk[n]] else []
  }

  function UploadsOf(kept: seq<DocFile>, env: Env): (r: seq<DocumentUpload>)
    ensures |r| == |kept|
    ensures forall i :: 0 <= i < |r| ==> r[i].name == kept[i].path
  {
    seq(|kept|, i requires 0 <= i < |kept| =>
      DocumentUpload(kept[i].path, if env.disk(kept[i].abs).Some? then env.disk(kept[i].abs).value else ""))
  }

  const BENIGN := "DocumentDuplicateError"

  /** Rejections in the acknowledgement: duplicates are skipped, everything else has failed. */
  function Classified(res: Result, failures: seq<Failure>): Result {
    if failures == [] then res
    else
      var n := |failures| - 1;
      var r, f := Classified(res, failures[..n]), failures[n];
      if f.reason == BENIGN then r.(skipped := r.skipped + 1, skippedNames := r.skippedNames + [f.name])
      else r.(failed := r.failed + 1, failedNames := r.failedNames + [f.name + ": " + f.reason])
  }

  function Entry(f: DocFile, id: string): CachedDoc { CachedDoc(f.sha, id, f.size) }

  /** The i-th job is recorded for the i-th uploaded file, whatever file the job is about. */
  function WithJobs(files: Files, kept: seq<DocFile>, jobs: seq<Job>, n: nat): Files
    requires n <= |kept| && n <= |jobs|
  {
    if n == 0 then files
    else WithJobs(files, kept, jobs, n - 1)[kept[n - 1].path := Entry(kept[n - 1], jobs[n - 1].documentId)]
  }

  function WithInline(files: Files, chunk: seq<DocFile>, ids: map<string, string>): Files {
    if chunk == [] then files
    else
      var n := |chunk| - 1;
      var f, before := chunk[n], WithInline(files, chunk[..n], ids);
      if f.path in ids then before[f.path := Entry(f, ids[f.path])] else before
  }

  function InlineCount(chunk: seq<DocFile>, ids: map<string, string>): nat {
    if chunk == [] then 0
    else
      var n := |chunk| - 1;
      InlineCount(chunk[..n], ids) + if chunk[n].path in ids then 1 else 0
  }

  function Min(a: nat, b: nat): nat { if a <= b then a else b }

  function AfterAck(res: Result, files: Files, chunk: seq<DocFile>, kept: seq<DocFile>, k: nat, env: Env)
    : (Result, Files)
  {
    var uploads := UploadsOf(kept, env);
    match env.ack(k, uploads)
    case HttpError => (res.(failed := res.failed + |kept|), files)
    case Async(batchId, jobs, failures) =>
      var acked := Classified(res.(batchIds := res.batchIds + [batchId]), failures);
      if env.noWait || |jobs| == 0 then (acked, files)
      else (
        match env.poll(k, uploads)
        case PollError => (acked.(failed := acked.failed + |kept|), files)
        case Finished(completed, failed, names) =>
          (acked.(uploaded := acked.uploaded + completed, failed := acked.failed + failed,
                  failedNames := acked.failedNames + names),
           WithJobs(files, kept, jobs, Min(|jobs|, |kept|))))
    case Inline(ids, failed) =>
      (res.(uploaded := res.uploaded + InlineCount(chunk, ids), failed := res.failed + failed),
       WithInline(files, chunk, ids))
  }

  function ChunkRun(res: Result, files: Files, chunk: seq<DocFile>, k: nat, env: Env): (Result, Files) {
    var kept := Kept(chunk, env);
    KeptIsShorter(chunk, env);
    var unread := res.(failed := res.failed + (|chunk| - |kept|));
    if kept == [] then (unread, files) else AfterAck(unread, files, chunk, kept, k, env)
  }

  /** The whole run: chunk after chunk. */
  function Run(res: Result, files: Files, docs: seq<DocFile>, k: nat, env: Env): (Result, Files)
    decreases |docs|
  {
    if docs == [] then (res, files)
    else
      var m := Min(UPLOAD_BATCH_SIZE, |docs|);
      var (r, c) := ChunkRun(res, files, docs[..m], k, env);
      Run(r, c, docs[m..], k + 1, env)
  }

  lemma {:induction false} KeptIsShorter(chunk: seq<DocFile>, env: Env)
    ensures |Kept(chunk, env)| <= |chunk|
  {
    if chunk != [] {
      KeptIsShorter(chunk[..|chunk| - 1], env);
    }
  }

  // ---- The uploader ---------------------------------------------------------

  lemma ChunkStep(chunk: seq<DocFile>, n: nat, env: Env, ids: map<string, string>, files: Files)
    requires n < |chunk|
    ensures Kept(chunk[..n + 1], env) == Kept(chunk[..n], env) + if Readable(chunk[n], env) then [chunk[n]] else []
    ensures InlineCount(chunk[..n + 1], ids) == InlineCount(chunk[..n], ids) + if chunk[n].path in ids then 1 else 0
    ensures WithInline(files, chunk[..n + 1], ids) ==
              if chunk[n].path in ids then
                WithInline(files, chunk[..n], ids)[chunk[n].path := Entry(chunk[n], ids[chunk[n].path])]
              else WithInline(files, chunk[..n], ids)
  {
    assert chunk[..n + 1][..n] == chunk[..n];
  }

  /** The files of at most 5 MiB that could be read, each once and in order. */
  ghost predicate IndexesReadable(uploadIdx: seq<nat>, chunk: seq<DocFile>, env: Env) {
    && (forall i, j :: 0 <= i < j < |uploadIdx| ==> uploadIdx[i] < uploadIdx[j])
    && forall i: nat :: i in uploadIdx <==>
         i < |chunk| && chunk[i].size <= 5 * 1024 * 1024 && env.disk(chunk[i].abs).Some?
  }

  lemma IndexStep(uploadIdx: seq<nat>, chunk: seq<DocFile>, n: nat, env: Env)
    requires n < |chunk| && IndexesReadable(uploadIdx, chunk[..n], env)
    ensures IndexesReadable(if Readable(chunk[n], env) then uploadIdx + [n] else uploadIdx, chunk[..n + 1], env)
  {
    forall i | 0 <= i < |uploadIdx| ensures uploadIdx[i] < n { assert uploadIdx[i] in uploadIdx; }
  }

  /** The uploads of the readable files of the chunk, and where each of them stands in it. */
  ghost predicate Reads(uploads: seq<DocumentUpload>, uploadIdx: seq<nat>, chunk: seq<DocFile>, env: Env) {
    && |uploads| == |uploadIdx| == |Kept(chunk, env)| <= |chunk|
    && uploads == UploadsOf(Kept(chunk, env), env)
    && Points(uploadIdx, chunk, Kept(chunk, env))
    && IndexesReadable(uploadIdx, chunk, env)
  }

  predicate Points(uploadIdx: seq<nat>, chunk: seq<DocFile>, kept: seq<DocFile>) {
    && |uploadIdx| == |kept|
    && forall i :: 0 <= i < |uploadIdx| ==> uploadIdx[i] < |chunk| && chunk[uploadIdx[i]] == kept[i]
  }

  lemma PointsStep(uploadIdx: seq<nat>, chunk: seq<DocFile>, n: nat, kept: seq<DocFile>)
    requires n < |chunk| && Points(uploadIdx, chunk[..n], kept)
    ensures Points(uploadIdx, chunk[..n + 1], kept)
    ensures Points(uploadIdx + [n], chunk[..n + 1], kept + [chunk[n]])
  {
  }

  lemma ReadsStep(uploads: seq<DocumentUpload>, uploadIdx: seq<nat>, chunk: seq<DocFile>, n: nat, env: Env)
    requires n < |chunk| && Reads(uploads, uploadIdx, chunk[..n], env)
    ensures var f, before := chunk[n], chunk[..n + 1];
            if !Readable(f, env) then Reads(uploads, uploadIdx, before, env)
            else Reads(uploads + [DocumentUpload(f.path, env.disk(f.abs).value)], uploadIdx + [n], before, env)
  {
    var kept, f := Kept(chunk[..n], env), chunk[n];
    ChunkStep(chunk, n, env, map[], map[]);
    IndexStep(uploadIdx, chunk, n, env);
    KeptIsShorter(chunk[..n + 1], env);
    assert Kept(chunk[..n + 1], env) == if Readable(f, env) then kept + [f] else kept;
    UploadsStep(kept, f, env);
    PointsStep(uploadIdx, chunk, n, kept);
    hide Kept, IndexesReadable, UploadsOf, Points;
  }

  lemma UploadsStep(kept: seq<DocFile>, f: DocFile, env: Env)
    ensures Readable(f, env) ==>
              UploadsOf(kept + [f], env) == UploadsOf(kept, env) + [DocumentUpload(f.path, env.disk(f.abs).value)]
  {
  }

  /** Reads one chunk: the uploads, and for each the index of its file in the chunk. */
  method ReadChunk(chunk: seq<DocFile>, env: Env) returns (uploads: seq<DocumentUpload>, uploadIdx: seq<nat>)
    ensures Reads(uploads, uploadIdx, chunk, env)
    ensures |uploads| == |uploadIdx|
    ensures forall i :: 0 <= i < |uploads| ==>
              && uploadIdx[i] < |chunk|
              && uploads[i].name == chunk[uploadIdx[i]].path
              && Some(uploads[i].content) == env.disk(chunk[uploadIdx[i]].abs)
  {
    var slots: seq<Option<string>> := [];
    for i := 0 to |chunk|
      invariant |slots| == i
      invariant forall j :: 0 <= j < i ==> slots[j] == if Readable(chunk[j], env) then env.disk(chunk[j].abs) else None
    {
      var f := chunk[i];
      if f.size > MAX_DOC_BYTES {
        slots := slots + [None];
        continue;
      }
      slots := slots + [env.disk(f.abs)];
    }
    uploads, uploadIdx := [], [];
    assert Reads([], [], chunk[..0], env);
    hide Reads;
    for i := 0 to |slots|
      invariant Reads(uploads, uploadIdx, chunk[..i], env)
    {
      ReadsStep(uploads, uploadIdx, chunk, i, env);
      if slots[i].None? {
        continue;
      }
      uploads := uploads + [DocumentUpload(chunk[i].path, slots[i].value)];
      uploadIdx := uploadIdx + [i];
    }
    assert chunk[..|chunk|] == chunk;
    ReadsContents(uploads, uploadIdx, chunk, env);
  }

  lemma ReadsContents(uploads: seq<DocumentUpload>, uploadIdx: seq<nat>, chunk: seq<DocFile>, env: Env)
    requires Reads(uploads, uploadIdx, chunk, env)
    ensures |uploads| == |uploadIdx|
    ensures forall i :: 0 <= i < |uploads| ==>
              && uploadIdx[i] < |chunk|
              && uploads[i].name == chunk[uploadIdx[i]].path
              && Some(uploads[i].content) == env.disk(chunk[uploadIdx[i]].abs)
  {
    UploadsAreContents(chunk, env);
  }

  lemma UploadsAreContents(chunk: seq<DocFile>, env: Env)
    ensures var kept := Kept(chunk, env);
            forall i :: 0 <= i < |kept| ==> Some(UploadsOf(kept, env)[i].content) == env.disk(kept[i].abs)
  {
    var kept := Kept(chunk, env);
    forall i | 0 <= i < |kept| ensures Some(UploadsOf(kept, env)[i].content) == env.disk(kept[i].abs) {
      KeptIsSubset(chunk, env, kept[i]);
    }
  }

  ghost function Refused(failures: seq<Failure>, duplicate: bool): set<nat> {
    set i: nat | i < |failures| && (failures[i].reason == "DocumentDuplicateError") == duplicate
  }

  lemma RefusedGrows(failures: seq<Failure>, duplicate: bool)
    requires failures != []
    ensures var n := |failures| - 1;
            var more := if (failures[n].reason == "DocumentDuplicateError") == duplicate then 1 else 0;
            |Refused(failures, duplicate)| == |Refused(failures[..n], duplicate)| + more
  {
    var n := |failures| - 1;
    var before := Refused(failures[..n], duplicate);
    assert Refused(failures, duplicate) ==
      if (failures[n].reason == "DocumentDuplicateError") == duplicate then before + {n} else before;
  }

  /** Every refusal is counted once and named once, as skipped if the server calls it a duplicate
      and as failed otherwise; nothing else changes. */
  ghost predicate Classifies(start: Result, failures: seq<Failure>, res: Result) {
    && res.uploaded == start.uploaded && res.batchIds == start.batchIds
    && res.skipped == start.skipped + |Refused(failures, true)|
    && res.failed == start.failed + |Refused(failures, false)|
    && |res.skippedNames| - |start.skippedNames| == res.skipped - start.skipped
    && |res.failedNames| - |start.failedNames| == res.failed - start.failed
    && (forall f :: f in failures && f.reason == "DocumentDuplicateError" ==> f.name in res.skippedNames)
    && (forall f :: f in failures && f.reason != "DocumentDuplicateError" ==>
          f.name + ": " + f.reason in res.failedNames)
  }

  lemma {:induction false} ClassifiedIs(start: Result, failures: seq<Failure>)
    ensures Classifies(start, failures, Classified(start, failures))
  {
    if failures != [] {
      var n := |failures| - 1;
      ClassifiedIs(start, failures[..n]);
      RefusedGrows(failures, true);
      RefusedGrows(failures, false);
      hide Refused;
      assert failures == failures[..n] + [failures[n]];
    }
  }

  method ClassifyFailures(start: Result, failures: seq<Failure>) returns (res: Result)
    ensures res == Classified(start, failures)
    ensures Classifies(start, failures, res)
  {
    ClassifiedIs(start, failures);
    res := start;
    for i := 0 to |failures|
      invariant res == Classified(start, failures[..i])
    {
      assert failures[..i + 1][..i] == failures[..i];
      var f := failures[i];
      if f.reason == BENIGN {
        res := res.(skipped := res.skipped + 1, skippedNames := res.skippedNames + [f.name]);
      } else {
        res := res.(failed := res.failed + 1, failedNames := res.failedNames + [f.name + ": " + f.reason]);
      }
    }
    assert failures[..|failures|] == failures;
  }

  /** The cache entries of an acknowledged, polled batch. */
  method RecordJobs(chunk: seq<DocFile>, uploadIdx: seq<nat>, jobs: seq<Job>, c: DocsCache, ghost kept: seq<DocFile>)
    requires Points(uploadIdx, chunk, kept)
    modifies c
    ensures c.Files == WithJobs(old(c.Files), kept, jobs, Min(|jobs|, |kept|))
    ensures DistinctPaths(kept) ==> forall i :: 0 <= i < |kept| && i < |jobs| ==>
              && kept[i].path in c.Files
              && c.Files[kept[i].path] == CachedDoc(kept[i].sha, jobs[i].documentId, kept[i].size)
  {
    for i := 0 to |jobs|
      invariant i <= |kept|
      invariant c.Files == WithJobs(old(c.Files), kept, jobs, i)
      invariant DistinctPaths(kept) ==> forall j :: 0 <= j < i ==>
          && kept[j].path in c.Files
          && c.Files[kept[j].path] == CachedDoc(kept[j].sha, jobs[j].documentId, kept[j].size)
    {
      if i >= |uploadIdx| {
        break;
      }
      var f := chunk[uploadIdx[i]];
      c.Files := c.Files[f.path := CachedDoc(f.sha, jobs[i].documentId, f.size)];
    }
  }

  lemma {:induction false} InlineCounts(chunk: seq<DocFile>, ids: map<string, string>)
    ensures InlineCount(chunk, ids) == |set i: nat | i < |chunk| && chunk[i].path in ids|
  {
    if chunk != [] {
      var n := |chunk| - 1;
      InlineCounts(chunk[..n], ids);
      var before := set i: nat | i < |chunk[..n]| && chunk[..n][i].path in ids;
      assert (set i: nat | i < |chunk| && chunk[i].path in ids)
          == if chunk[n].path in ids then before + {n} else before;
    }
  }

  /** What the reply names is recorded under its own identifier; nothing else changes. */
  ghost predicate Records(before: Files, after: Files, chunk: seq<DocFile>, ids: map<string, string>) {
    && (DistinctPaths(chunk) ==> forall f :: f in chunk && f.path in ids ==>
          f.path in after && after[f.path] == CachedDoc(f.sha, ids[f.path], f.size))
    && (forall p :: !WalkHas(chunk, p) || p !in ids ==>
          if p in before then p in after && after[p] == before[p] else p !in after)
  }

  lemma {:induction false} InlineRecords(files: Files, chunk: seq<DocFile>, ids: map<string, string>)
    ensures Records(files, WithInline(files, chunk, ids), chunk, ids)
  {
    if chunk != [] {
      var n := |chunk| - 1;
      InlineRecords(files, chunk[..n], ids);
      assert chunk == chunk[..n] + [chunk[n]];
      forall p | WalkHas(chunk[..n], p) || p == chunk[n].path ensures WalkHas(chunk, p) {
        if WalkHas(chunk[..n], p) {
          var f :| f in chunk[..n] && f.path == p;
          assert f in chunk;
        }
      }
    }
  }

  /** The legacy reply names the documents it accepted. */
  method RecordInline(chunk: seq<DocFile>, ids: map<string, string>, c: DocsCache) returns (uploaded: nat)
    modifies c
    ensures c.Files == WithInline(old(c.Files), chunk, ids)
    ensures uploaded == InlineCount(chunk, ids)
    ensures uploaded == |set i: nat | i < |chunk| && chunk[i].path in ids|
    ensures Records(old(c.Files), c.Files, chunk, ids)
  {
    InlineCounts(chunk, ids);
    InlineRecords(old(c.Files), chunk, ids);
    hide Records;
    uploaded := 0;
    for i := 0 to |chunk|
      invariant c.Files == WithInline(old(c.Files), chunk[..i], ids)
      invariant uploaded == InlineCount(chunk[..i], ids)
    {
      ChunkStep(chunk, i, Env(_ => None, (_, _) => HttpError, (_, _) => PollError, false), ids, old(c.Files));
      var f := chunk[i];
      if f.path !in ids {
        continue;
      }
      c.Files := c.Files[f.path := CachedDoc(f.sha, ids[f.path], f.size)];
      uploaded := uploaded + 1;
    }
    assert chunk[..|chunk|] == chunk;
  }

  /** The counters after one chunk, reply by reply: a lost reply fails every file of the chunk, a
      failed poll every file that was sent, and a file that could not be read has always failed. */
  ghost predicate Counts(start: Result, res: Result, chunk: seq<DocFile>, k: nat, env: Env) {
    var uploads := UploadsOf(Kept(chunk, env), env);
    var unread := |chunk| - |uploads|;
    if uploads == [] then res == start.(failed := start.failed + |chunk|)
    else
      match env.ack(k, uploads)
      case HttpError => res == start.(failed := start.failed + |chunk|)
      case Inline(ids, failed) =>
        res == start.(uploaded := start.uploaded + |set i: nat | i < |chunk| && chunk[i].path in ids|,
                      failed := res.failed) && res.failed == start.failed + unread + failed
      case Async(batchId, jobs, failures) =>
        && res.batchIds == start.batchIds + [batchId]
        && res.skipped == start.skipped + |Refused(failures, true)|
        && var refused := start.failed + unread + |Refused(failures, false)|;
        (if env.noWait || jobs == [] then res.uploaded == start.uploaded && res.failed == refused
         else
           match env.poll(k, uploads)
           case PollError => res.uploaded == start.uploaded && res.failed == refused + |uploads|
           case Finished(completed, failed, names) =>
             && res.uploaded == start.uploaded + completed
             && res.failed == refused + failed
             && |names| <= |res.failedNames| && res.failedNames[|res.failedNames| - |names|..] == names)
  }

  lemma ChunkCounts(start: Result, files: Files, chunk: seq<DocFile>, k: nat, env: Env)
    ensures Counts(start, ChunkRun(start, files, chunk, k, env).0, chunk, k, env)
  {
    hide WithJobs, WithInline, Classified, Refused, Kept;
    var kept := Kept(chunk, env);
    KeptIsShorter(chunk, env);
    match env.ack(k, UploadsOf(kept, env)) {
      case HttpError =>
      case Inline(ids, _) => InlineCounts(chunk, ids);
      case Async(batchId, _, failures) =>
        ClassifiedIs(start.(failed := start.failed + (|chunk| - |kept|), batchIds := start.batchIds + [batchId]),
          failures);
    }
  }

  method UploadChunk(start: Result, chunk: seq<DocFile>, k: nat, c: DocsCache, env: Env) returns (res: Result)
    modifies c
    ensures (res, c.Files) == ChunkRun(start, old(c.Files), chunk, k, env)
    ensures Counts(start, res, chunk, k, env)
  {
    hide WithJobs, WithInline, Classified, Counts, IndexesReadable, Kept, UploadsOf;
    ChunkCounts(start, c.Files, chunk, k, env);
    var uploads, uploadIdx := ReadChunk(chunk, env);
    res := start.(failed := start.failed + (|chunk| - |uploads|));
    if |uploads| == 0 {
      return;
    }
    match env.ack(k, uploads) {
      case HttpError =>
        res := res.(failed := res.failed + |uploads|);
      case Async(batchId, jobs, failures) =>
        res := ClassifyFailures(res.(batchIds := res.batchIds + [batchId]), failures);
        if env.noWait || |jobs| == 0 {
          return;
        }
        match env.poll(k, uploads) {
          case PollError =>
            res := res.(failed := res.failed + |uploads|);
          case Finished(completed, failed, names) =>
            RecordJobs(chunk, uploadIdx, jobs, c, Kept(chunk, env));
            res := res.(uploaded := res.uploaded + completed, failed := res.failed + failed,
                        failedNames := res.failedNames + names);
        }
      case Inline(ids, failed) =>
        var n := RecordInline(chunk, ids, c);
        res := res.(uploaded := res.uploaded + n, failed := res.failed + failed);
    }
  }

  /** `UploadInBatches`. */
  method UploadInBatches(docs: seq<DocFile>, c: DocsCache, env: Env) returns (res: Result)
    modifies c
    ensures (res, c.Files) == Run(NOTHING_DONE, old(c.Files), docs, 0, env)
  {
    hide ChunkRun;
    res := NOTHING_DONE;
    var start, k := 0, 0;
    assert docs[0..] == docs;
    while start < |docs|
      invariant start <= |docs|
      invariant Run(res, c.Files, docs[start..], k, env) == Run(NOTHING_DONE, old(c.Files), docs, 0, env)
    {
      var end := Min(start + UPLOAD_BATCH_SIZE, |docs|);
      assert docs[start..][..end - start] == docs[start..end] && docs[start..][end - start..] == docs[end..];
      res := UploadChunk(res, docs[start..end], k, c, env);
      start, k := end, k + 1;
    }
  }

  /** One request for every fifty files, the last of them for what is left. */
  lemma {:induction false} FiftyPerRequest(res: Result, files: Files, docs: seq<DocFile>, k: nat, env: Env)
    requires forall f :: f in docs ==> f.size <= 5 * 1024 * 1024 && env.disk(f.abs).Some?
    requires forall n, uploads :: env.ack(n, uploads).Async?
    ensures |Run(res, files, docs, k, env).0.batchIds| == |res.batchIds| + (|docs| + 49) / 50
    decreases |docs|
  {
    if docs != [] {
      var m := Min(UPLOAD_BATCH_SIZE, |docs|);
      var (r, c) := ChunkRun(res, files, docs[..m], k, env);
      ChunkCounts(res, files, docs[..m], k, env);
      KeptIsSubset(docs[..m], env, docs[0]);
      hide ChunkRun, Refused, UploadsOf;
      FiftyPerRequest(r, c, docs[m..], k + 1, env);
    }
  }

  // ---- Whatever the server answers ------------------------------------------

  /** Every entry that `after` adds or changes carries the hash and the size of a file in
      `docs` with that same path; nothing disappears. */
  ghost predicate OnlyRecords(before: Files, after: Files, docs: seq<DocFile>) {
    && before.Keys <= after.Keys
    && forall p :: p in after && (p !in before || after[p] != before[p]) ==>
         exists f :: f in docs && f.path == p && after[p].sha == f.sha && after[p].size == f.size
  }

  lemma OnlyRecordsCompose(a: Files, b: Files, c: Files, first: seq<DocFile>, second: seq<DocFile>)
    requires OnlyRecords(a, b, first) && OnlyRecords(b, c, second)
    ensures OnlyRecords(a, c, first + second)
  {
  }

  lemma OneRecord(before: Files, f: DocFile, id: string)
    ensures OnlyRecords(before, before[f.path := Entry(f, id)], [f])
  {
  }

  lemma {:induction false} JobsOnlyRecord(files: Files, kept: seq<DocFile>, jobs: seq<Job>, n: nat)
    requires n <= |kept| && n <= |jobs|
    ensures OnlyRecords(files, WithJobs(files, kept, jobs, n), kept[..n])
  {
    if n > 0 {
      JobsOnlyRecord(files, kept, jobs, n - 1);
      var before := WithJobs(files, kept, jobs, n - 1);
      OneRecord(before, kept[n - 1], jobs[n - 1].documentId);
      assert kept[..n] == kept[..n - 1] + [kept[n - 1]];
      OnlyRecordsCompose(files, before, WithJobs(files, kept, jobs, n), kept[..n - 1], [kept[n - 1]]);
    }
  }

  lemma {:induction false} InlineOnlyRecords(files: Files, chunk: seq<DocFile>, ids: map<string, string>)
    ensures OnlyRecords(files, WithInline(files, chunk, ids), chunk)
  {
    if chunk != [] {
      var n := |chunk| - 1;
      InlineOnlyRecords(files, chunk[..n], ids);
      var before := WithInline(files, chunk[..n], ids);
      assert chunk == chunk[..n] + [chunk[n]];
      if chunk[n].path in ids {
        OneRecord(before, chunk[n], ids[chunk[n].path]);
      }
      OnlyRecordsCompose(files, before, WithInline(files, chunk, ids), chunk[..n], [chunk[n]]);
    }
  }

  lemma {:induction false} KeptIsSubset(chunk: seq<DocFile>, env: Env, f: DocFile)
    ensures f in Kept(chunk, env) <==> f in chunk && Readable(f, env)
  {
    if chunk != [] {
      var n := |chunk| - 1;
      KeptIsSubset(chunk[..n], env, f);
      assert chunk == chunk[..n] + [chunk[n]];
    }
  }

  lemma WiderRecords(before: Files, after: Files, few: seq<DocFile>, many: seq<DocFile>)
    requires OnlyRecords(before, after, few) && forall f :: f in few ==> f in many
    ensures OnlyRecords(before, after, many)
  {
  }

  lemma ChunkOnlyRecords(res: Result, files: Files, chunk: seq<DocFile>, k: nat, env: Env)
    ensures OnlyRecords(files, ChunkRun(res, files, chunk, k, env).1, chunk)
  {
    hide WithJobs, WithInline, Kept, OnlyRecords, Classified;
    var kept := Kept(chunk, env);
    NoRecords(files, chunk);
    forall f | f in kept ensures f in chunk { KeptIsSubset(chunk, env, f); }
    match env.ack(k, UploadsOf(kept, env)) {
      case HttpError =>
      case Async(_, jobs, _) =>
        var n := Min(|jobs|, |kept|);
        JobsOnlyRecord(files, kept, jobs, n);
        WiderRecords(files, WithJobs(files, kept, jobs, n), kept[..n], chunk);
      case Inline(ids, _) =>
        InlineOnlyRecords(files, chunk, ids);
    }
  }

  lemma NoRecords(files: Files, docs: seq<DocFile>)
    ensures OnlyRecords(files, files, docs)
  {
  }

  /** For every server and every list of files: a changed cache entry always carries the hash
      and size of the input file of that path, and all other entries are untouched. */
  lemma {:induction false} RunOnlyRecords(res: Result, files: Files, docs: seq<DocFile>, k: nat, env: Env)
    ensures OnlyRecords(files, Run(res, files, docs, k, env).1, docs)
    decreases |docs|
  {
    if docs != [] {
      hide ChunkRun, OnlyRecords;
      var m := Min(UPLOAD_BATCH_SIZE, |docs|);
      var (r, c) := ChunkRun(res, files, docs[..m], k, env);
      ChunkOnlyRecords(res, files, docs[..m], k, env);
      RunOnlyRecords(r, c, docs[m..], k + 1, env);
      OnlyRecordsCompose(files, c, Run(r, c, docs[m..], k + 1, env).1, docs[..m], docs[m..]);
      assert docs == docs[..m] + docs[m..];
    }
  }
}
