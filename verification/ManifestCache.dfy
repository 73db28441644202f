/** The daemon's manifest cache (internal/daemon/manifest_cache.go): disk reads without a
    lock, check-then-install under it, and a background refetch that must not replace a newer
    manifest on disk.  Foreground syncs write the same file from another process. */
module ManifestCache {
  import opened Options

  /** `indexedAt` is the parsed timestamp; None when it is empty or not RFC 3339. */
  datatype Manifest = Manifest(indexedAt: Option<int>, body: string)

  datatype File = Missing | Unreadable | Corrupt | Stored(m: Manifest)

  // ---- One workspace as a transition system ---------------------------------

  /** The refetch: none running, fetched and waiting for the lock, or past its comparison with
      the disk and holding the lock. */
  datatype Refetch = NoRefetch | Fetched(m: Manifest) | Checked(m: Manifest)

  /** `inFlight`: the manifests that readers have taken from disk and not yet installed. */
  datatype State = State(disk: File, cached: Option<Manifest>, inFlight: map<int, Manifest>, refetch: Refetch)

  datatype Step =
    | ReadDisk(reader: int)
    | Install(reader: int)
    | Fetch(m: Manifest)
    | Check
    | Rename(ok: bool)
    | Foreground(m: Manifest)
    | Invalidate

  /** The comparison inside the critical section: only two parsable timestamps can stop the write. */
  predicate DiskIsNewer(disk: File, m: Manifest) {
    && disk.Stored? && disk.m.indexedAt.Some? && m.indexedAt.Some?
    && disk.m.indexedAt.value > m.indexedAt.value
  }

  /** Steps that need the lock wait while the refetch holds it; a foreground sync does not know it. */
  predicate Enabled(s: State, step: Step) {
    match step
    case ReadDisk(r) => r !in s.inFlight && s.disk.Stored?
    case Install(r) => r in s.inFlight && !s.refetch.Checked?
    case Fetch(_) => s.refetch.NoRefetch?
    case Check => s.refetch.Fetched?
    case Rename(_) => s.refetch.Checked?
    case Foreground(_) => true
    case Invalidate => !s.refetch.Checked?
  }

  /** A step that is not enabled does nothing. */
  function Next(s: State, step: Step): State {
    if !Enabled(s, step) then s
    else
      match step
      case ReadDisk(r) => s.(inFlight := s.inFlight[r := s.disk.m])
      case Install(r) =>
        s.(cached := if s.cached.Some? then s.cached else Some(s.inFlight[r]), inFlight := s.inFlight - {r})
      case Fetch(m) => s.(refetch := Fetched(m))
      case Check =>
        if DiskIsNewer(s.disk, s.refetch.m) then s.(refetch := NoRefetch) else s.(refetch := Checked(s.refetch.m))
      case Rename(ok) =>
        if ok then s.(disk := Stored(s.refetch.m), cached := Some(s.refetch.m), refetch := NoRefetch)
        else s.(refetch := NoRefetch)
      case Foreground(m) => s.(disk := Stored(m))
      case Invalidate => s.(cached := None)
  }

  // ---- Order on manifests ---------------------------------------------------

  predicate NewerThan(a: Manifest, b: Manifest) {
    a.indexedAt.Some? && (b.indexedAt.None? || a.indexedAt.value > b.indexedAt.value)
  }

  /** The file gives `m` up for something older. */
  predicate GoesBackwards(before: File, after: File) {
    before.Stored? && (!after.Stored? || NewerThan(before.m, after.m))
  }

  /** Not newer than what is on disk. */
  predicate Behind(m: Manifest, disk: File) {
    disk.Stored? && !NewerThan(m, disk.m)
  }

  /** Foreground syncs move forward; every manifest involved has a parsable timestamp. */
  predicate WellTimed(s: State, step: Step) {
    match step
    case Fetch(m) => m.indexedAt.Some?
    case Foreground(m) => m.indexedAt.Some? && !GoesBackwards(s.disk, Stored(m))
    case _ => true
  }

  predicate Parsable(f: File) { f.Stored? ==> f.m.indexedAt.Some? }

  // ---- Runs -----------------------------------------------------------------

  /** The state after the first `n` steps. */
  function At(s: State, steps: seq<Step>, n: nat): State
    requires n <= |steps|
  {
    if n == 0 then s else Next(At(s, steps, n - 1), steps[n - 1])
  }

  predicate PossibleRun(s: State, steps: seq<Step>) {
    forall i :: 0 <= i < |steps| ==> Enabled(At(s, steps, i), steps[i]) && WellTimed(At(s, steps, i), steps[i])
  }

  predicate DiskNeverBackwards(s: State, steps: seq<Step>) {
    forall i :: 0 <= i < |steps| ==> !GoesBackwards(At(s, steps, i).disk, At(s, steps, i + 1).disk)
  }

  predicate Fresh(s: State) {
    Parsable(s.disk) && s.cached.None? && s.inFlight == map[] && s.refetch.NoRefetch?
  }

  lemma AtNext(s: State, steps: seq<Step>, n: nat)
    ensures At(s, steps, 0) == s
    ensures n < |steps| ==> At(s, steps, n + 1) == Next(At(s, steps, n), steps[n])
  {
  }

  /** Every timestamp around is parsable. */
  predicate Timed(s: State) { Parsable(s.disk) && (s.refetch.NoRefetch? || s.refetch.m.indexedAt.Some?) }

  lemma {:induction false} RunIsTimed(s: State, steps: seq<Step>, n: nat)
    requires Timed(s) && PossibleRun(s, steps) && n <= |steps|
    ensures Timed(At(s, steps, n))
  {
    hide At, Next, Timed;
    AtNext(s, steps, 0);
    if n > 0 {
      RunIsTimed(s, steps, n - 1);
      AtNext(s, steps, n - 1);
      assert WellTimed(At(s, steps, n - 1), steps[n - 1]);
      NextIsTimed(At(s, steps, n - 1), steps[n - 1]);
    }
  }

  lemma NextIsTimed(s: State, step: Step)
    requires Timed(s) && WellTimed(s, step)
    ensures Timed(Next(s, step))
  {
  }

  // ---- Overtaking, read off the sequence of steps ---------------------------

  predicate OfRefetch(step: Step) { step.Fetch? || step.Check? || step.Rename? }

  /** No step of a refetch among those at `from` up to `end`. */
  predicate Quiet(steps: seq<Step>, from: nat, end: nat)
    requires end <= |steps|
  {
    forall l :: from <= l < end ==> !OfRefetch(steps[l])
  }

  /** One refetch up to its rename: fetched at `f`, compared at `c`, renamed at `k`. */
  predicate OneRefetch(steps: seq<Step>, f: nat, c: nat, k: nat)
    requires k <= |steps|
  {
    && f < c < k && steps[f].Fetch? && steps[c].Check?
    && Quiet(steps, f + 1, c) && Quiet(steps, c + 1, k)
  }

  /** Between comparison and rename, at `j`, a foreground sync stored a newer manifest. */
  predicate OvertakenAt(steps: seq<Step>, f: nat, c: nat, j: nat, k: nat)
    requires k < |steps|
  {
    && OneRefetch(steps, f, c, k) && steps[k] == Rename(true)
    && c < j < k && steps[j].Foreground? && NewerThan(steps[j].m, steps[f].m)
  }

  ghost predicate Overtaken(steps: seq<Step>) {
    exists f: nat, c: nat, j: nat, k: nat :: k < |steps| && OvertakenAt(steps, f, c, j, k)
  }

  /** While no step of a refetch comes, the refetch stays where it is and the disk moves forward. */
  lemma {:induction false} QuietRun(s: State, steps: seq<Step>, from: nat, end: nat)
    requires Timed(s) && PossibleRun(s, steps) && from <= end <= |steps| && Quiet(steps, from, end)
    ensures At(s, steps, end).refetch == At(s, steps, from).refetch
    ensures !GoesBackwards(At(s, steps, from).disk, At(s, steps, end).disk)
    decreases end
  {
    hide At;
    if from < end {
      QuietRun(s, steps, from, end - 1);
      AtNext(s, steps, end - 1);
      RunIsTimed(s, steps, end - 1);
      RunIsTimed(s, steps, from);
      RunIsTimed(s, steps, end);
      assert Enabled(At(s, steps, end - 1), steps[end - 1]) && WellTimed(At(s, steps, end - 1), steps[end - 1]);
      hide PossibleRun;
    }
  }

  /** Where the pending refetch comes from. */
  lemma {:induction false} FetchedAt(s: State, steps: seq<Step>, n: nat) returns (f: nat)
    requires Fresh(s) && PossibleRun(s, steps) && n <= |steps| && At(s, steps, n).refetch.Fetched?
    ensures f < n && steps[f] == Fetch(At(s, steps, n).refetch.m) && Quiet(steps, f + 1, n)
  {
    hide At;
    AtNext(s, steps, 0);
    AtNext(s, steps, n - 1);
    assert Enabled(At(s, steps, n - 1), steps[n - 1]);
    hide PossibleRun;
    if steps[n - 1].Fetch? {
      f := n - 1;
    } else {
      f := FetchedAt(s, steps, n - 1);
    }
  }

  lemma {:induction false} CheckedAt(s: State, steps: seq<Step>, n: nat) returns (f: nat, c: nat)
    requires Fresh(s) && PossibleRun(s, steps) && n <= |steps| && At(s, steps, n).refetch.Checked?
    ensures OneRefetch(steps, f, c, n) && steps[f] == Fetch(At(s, steps, n).refetch.m)
    ensures !DiskIsNewer(At(s, steps, c + 1).disk, steps[f].m)
  {
    hide At;
    AtNext(s, steps, 0);
    AtNext(s, steps, n - 1);
    assert Enabled(At(s, steps, n - 1), steps[n - 1]);
    hide PossibleRun;
    if steps[n - 1].Check? {
      c := n - 1;
      f := FetchedAt(s, steps, n - 1);
    } else {
      hide DiskIsNewer;
      f, c := CheckedAt(s, steps, n - 1);
    }
  }

  /** The last write of a quiet stretch: a newer file at its end was stored by a foreground sync. */
  lemma {:induction false} QuietWriter(s: State, steps: seq<Step>, from: nat, end: nat) returns (j: nat)
    requires Timed(s) && PossibleRun(s, steps) && from <= end <= |steps| && Quiet(steps, from, end)
    requires At(s, steps, end).disk != At(s, steps, from).disk
    ensures from <= j < end && steps[j].Foreground? && At(s, steps, end).disk == Stored(steps[j].m)
    decreases end
  {
    hide At;
    AtNext(s, steps, end - 1);
    assert Enabled(At(s, steps, end - 1), steps[end - 1]);
    if steps[end - 1].Foreground? {
      j := end - 1;
    } else {
      j := QuietWriter(s, steps, from, end - 1);
    }
  }

  /** A rename takes the disk backwards only if its refetch was overtaken. */
  lemma BackwardsRenameIsOvertaken(s: State, steps: seq<Step>, k: nat) returns (f: nat, c: nat, j: nat)
    requires Fresh(s) && PossibleRun(s, steps) && k < |steps|
    requires GoesBackwards(At(s, steps, k).disk, At(s, steps, k + 1).disk)
    ensures OvertakenAt(steps, f, c, j, k) && Overtaken(steps)
  {
    hide At;
    AtNext(s, steps, k);
    RunIsTimed(s, steps, k);
    var here := At(s, steps, k);
    assert Enabled(here, steps[k]) && WellTimed(here, steps[k]);
    assert steps[k] == Rename(true);
    f, c := CheckedAt(s, steps, k);
    RunIsTimed(s, steps, c + 1);
    j := QuietWriter(s, steps, c + 1, k);
    assert OvertakenAt(steps, f, c, j, k);
  }

  /** The refetch that is about to rename. */
  lemma RefetchAt(s: State, steps: seq<Step>, f: nat, c: nat, k: nat)
    requires Fresh(s) && PossibleRun(s, steps) && k < |steps| && OneRefetch(steps, f, c, k) && steps[k].Rename?
    ensures At(s, steps, k).refetch == Checked(steps[f].m)
    ensures At(s, steps, c + 1).refetch == Checked(steps[f].m)
    ensures !DiskIsNewer(At(s, steps, c + 1).disk, steps[f].m) && steps[f].m.indexedAt.Some?
  {
    hide At;
    AtNext(s, steps, f);
    AtNext(s, steps, c);
    QuietRun(s, steps, f + 1, c);
    QuietRun(s, steps, c + 1, k);
    assert Enabled(At(s, steps, f), steps[f]) && WellTimed(At(s, steps, f), steps[f]);
    assert Enabled(At(s, steps, c), steps[c]) && Enabled(At(s, steps, k), steps[k]);
    hide PossibleRun;
  }

  /** An overtaken refetch takes the disk backwards. */
  lemma OvertakenRenameGoesBack(s: State, steps: seq<Step>, f: nat, c: nat, j: nat, k: nat)
    requires Fresh(s) && PossibleRun(s, steps) && k < |steps| && OvertakenAt(steps, f, c, j, k)
    ensures GoesBackwards(At(s, steps, k).disk, At(s, steps, k + 1).disk)
  {
    hide At;
    AtNext(s, steps, f);
    AtNext(s, steps, c);
    AtNext(s, steps, j);
    AtNext(s, steps, k);
    QuietRun(s, steps, f + 1, c);
    QuietRun(s, steps, c + 1, k);
    QuietRun(s, steps, j + 1, k);
    RunIsTimed(s, steps, k);
    assert Enabled(At(s, steps, f), steps[f]) && Enabled(At(s, steps, c), steps[c])
      && Enabled(At(s, steps, k), steps[k]);
    assert WellTimed(At(s, steps, j), steps[j]);
    hide PossibleRun;
  }

  /** For every interleaving of readers, refetches, invalidations and forward-moving foreground
      syncs: the manifest on disk never goes backwards exactly when no foreground sync stores a
      newer manifest between the comparison and the successful rename of one refetch. */
  lemma DiskForwardIff(s: State, steps: seq<Step>)
    requires Fresh(s) && PossibleRun(s, steps)
    ensures DiskNeverBackwards(s, steps) <==> !Overtaken(steps)
  {
    hide *;
    if Overtaken(steps) {
      SomeRenameGoesBack(s, steps);
    }
    if !DiskNeverBackwards(s, steps) {
      var k := ABackwardsStep(s, steps);
      var _, _, _ := BackwardsRenameIsOvertaken(s, steps, k);
    }
  }

  lemma SomeRenameGoesBack(s: State, steps: seq<Step>)
    requires Fresh(s) && PossibleRun(s, steps) && Overtaken(steps)
    ensures !DiskNeverBackwards(s, steps)
  {
    hide At, PossibleRun, Fresh, OvertakenAt, GoesBackwards;
    var f: nat, c: nat, j: nat, k: nat :| k < |steps| && OvertakenAt(steps, f, c, j, k);
    OvertakenRenameGoesBack(s, steps, f, c, j, k);
  }

  lemma ABackwardsStep(s: State, steps: seq<Step>) returns (k: nat)
    requires !DiskNeverBackwards(s, steps)
    ensures k < |steps| && GoesBackwards(At(s, steps, k).disk, At(s, steps, k + 1).disk)
  {
    hide At, GoesBackwards;
    k :| k < |steps| && GoesBackwards(At(s, steps, k).disk, At(s, steps, k + 1).disk);
  }

  // ---- The cache in runs that are not overtaken -----------------------------

  /** Cache entry and reads in flight are never newer than the disk. */
  predicate NothingAhead(s: State) {
    && (s.cached.Some? ==> Behind(s.cached.value, s.disk))
    && (forall r :: r in s.inFlight ==> Behind(s.inFlight[r], s.disk))
  }

  /** While the refetch holds the lock, the entry is not newer than what it is about to install. */
  predicate EntryWaits(s: State) {
    s.refetch.Checked? && s.cached.Some? ==> !NewerThan(s.cached.value, s.refetch.m)
  }

  lemma StepKeepsBehind(s: State, step: Step)
    requires Timed(s) && NothingAhead(s) && EntryWaits(s)
    requires Enabled(s, step) && WellTimed(s, step) && !GoesBackwards(s.disk, Next(s, step).disk)
    ensures NothingAhead(Next(s, step)) && EntryWaits(Next(s, step))
  {
  }

  /** Where the entry is not newer than a manifest that has passed the comparison, no step but
      Invalidate takes it back, not even the rename of an overtaken refetch. */
  lemma CacheMovesForward(s: State, step: Step)
    requires Timed(s) && EntryWaits(s) && Enabled(s, step)
    requires s.cached.Some? && !step.Invalidate?
    ensures Next(s, step).cached.Some? && !NewerThan(s.cached.value, Next(s, step).cached.value)
  {
  }

  /** In a run that is not overtaken, at every point. */
  lemma {:induction false} NothingEverAhead(s: State, steps: seq<Step>, n: nat)
    requires Fresh(s) && PossibleRun(s, steps) && !Overtaken(steps) && n <= |steps|
    ensures NothingAhead(At(s, steps, n)) && EntryWaits(At(s, steps, n))
  {
    hide At, Overtaken;
    AtNext(s, steps, 0);
    if n > 0 {
      NothingEverAhead(s, steps, n - 1);
      AtNext(s, steps, n - 1);
      RunIsTimed(s, steps, n - 1);
      DiskForwardIff(s, steps);
      hide NothingAhead, EntryWaits, Next, Timed, Enabled, WellTimed, GoesBackwards;
      StepKeepsBehind(At(s, steps, n - 1), steps[n - 1]);
    }
  }

  /** In such a run a cache entry only moves forward until it is invalidated. */
  lemma {:induction false} CacheForwardOverRuns(s: State, steps: seq<Step>, from: nat, end: nat)
    requires Fresh(s) && PossibleRun(s, steps) && !Overtaken(steps) && from <= end <= |steps|
    requires At(s, steps, from).cached.Some? && Invalidate !in steps[from..end]
    ensures At(s, steps, end).cached.Some?
    ensures !NewerThan(At(s, steps, from).cached.value, At(s, steps, end).cached.value)
    decreases end
  {
    hide At, Overtaken;
    if from < end {
      assert steps[from..end] == steps[from..end - 1] + [steps[end - 1]];
      CacheForwardOverRuns(s, steps, from, end - 1);
      NothingEverAhead(s, steps, end - 1);
      AtNext(s, steps, end - 1);
      RunIsTimed(s, steps, end - 1);
      DiskForwardIff(s, steps);
      hide NothingAhead, EntryWaits, Next, Timed, Enabled, WellTimed, GoesBackwards;
      CacheMovesForward(At(s, steps, end - 1), steps[end - 1]);
    }
  }

  // ---- Freshness after Invalidate -------------------------------------------

  /** The read that is installed at `p` was taken at `q`. */
  predicate ReadFor(steps: seq<Step>, q: nat, p: nat)
    requires p < |steps|
  {
    && q < p && steps[p].Install? && steps[q] == ReadDisk(steps[p].reader)
    && forall l :: q < l < p ==> steps[l] != ReadDisk(steps[p].reader) && steps[l] != Install(steps[p].reader)
  }

  lemma {:induction false} InFlightSince(s: State, steps: seq<Step>, r: int, n: nat) returns (q: nat)
    requires Fresh(s) && PossibleRun(s, steps) && n <= |steps| && r in At(s, steps, n).inFlight
    ensures q < n && steps[q] == ReadDisk(r) && At(s, steps, q).disk == Stored(At(s, steps, n).inFlight[r])
    ensures forall l :: q < l < n ==> steps[l] != ReadDisk(r) && steps[l] != Install(r)
  {
    hide At;
    AtNext(s, steps, 0);
    var before, step := At(s, steps, n - 1), steps[n - 1];
    AtNext(s, steps, n - 1);
    assert Enabled(before, step);
    hide PossibleRun;
    if step == ReadDisk(r) {
      q := n - 1;
    } else {
      q := InFlightSince(s, steps, r, n - 1);
    }
  }

  /** What step `l` writes to disk, if it does. */
  function Written(s: State, steps: seq<Step>, l: nat): Option<Manifest>
    requires l < |steps|
  {
    if steps[l].Foreground? then Some(steps[l].m)
    else if steps[l] == Rename(true) && At(s, steps, l).refetch.Checked? then Some(At(s, steps, l).refetch.m)
    else None
  }

  /** Between `from` and `end` something newer than `m` is written to disk. */
  ghost predicate NewerWritten(s: State, steps: seq<Step>, from: nat, end: nat, m: Manifest)
    requires end <= |steps|
  {
    exists l :: from <= l < end && Written(s, steps, l).Some? && NewerThan(Written(s, steps, l).value, m)
  }

  lemma {:induction false} NewerDiskWasWritten(s: State, steps: seq<Step>, from: nat, end: nat, m: Manifest)
    requires Timed(s) && PossibleRun(s, steps) && DiskNeverBackwards(s, steps) && from <= end <= |steps|
    requires At(s, steps, from).disk == Stored(m)
    ensures At(s, steps, end).disk.Stored?
    ensures NewerThan(At(s, steps, end).disk.m, m) <==> NewerWritten(s, steps, from, end, m)
    decreases end
  {
    hide At;
    RunIsTimed(s, steps, from);
    if from < end {
      NewerDiskWasWritten(s, steps, from, end - 1, m);
      AtNext(s, steps, end - 1);
      RunIsTimed(s, steps, end - 1);
      RunIsTimed(s, steps, end);
      var before, step, after := At(s, steps, end - 1), steps[end - 1], At(s, steps, end);
      assert Enabled(before, step) && !GoesBackwards(before.disk, after.disk);
      hide PossibleRun, DiskNeverBackwards;
      var w := Written(s, steps, end - 1);
      assert after.disk == if w.Some? then Stored(w.value) else before.disk;
      assert NewerWritten(s, steps, from, end, m) <==>
             NewerWritten(s, steps, from, end - 1, m) || (w.Some? && NewerThan(w.value, m));
    }
  }

  /** The entry installed at `p` after an invalidation at `v` is at least as new as the disk was
      at the invalidation exactly when its read was not taken before a newer write that the
      invalidation followed. */
  lemma FreshAfterInvalidateIff(s: State, steps: seq<Step>, v: nat, q: nat, p: nat)
    requires Fresh(s) && PossibleRun(s, steps) && !Overtaken(steps)
    requires v < p < |steps| && steps[v] == Invalidate && At(s, steps, p).cached.None? && ReadFor(steps, q, p)
    ensures At(s, steps, p + 1).cached == Some(At(s, steps, q).disk.m)
    ensures (At(s, steps, v).disk.Stored? ==> !NewerThan(At(s, steps, v).disk.m, At(s, steps, p + 1).cached.value)) <==>
              !(q < v && NewerWritten(s, steps, q, v, At(s, steps, q).disk.m))
  {
    hide At;
    AtNext(s, steps, p);
    assert Enabled(At(s, steps, p), steps[p]) && Enabled(At(s, steps, q), steps[q]);
    var q' := InFlightSince(s, steps, steps[p].reader, p);
    assert q == q';
    DiskForwardIff(s, steps);
    var m := At(s, steps, q).disk.m;
    if q < v {
      NewerDiskWasWritten(s, steps, q, v, m);
    } else if At(s, steps, v).disk.Stored? {
      NewerDiskWasWritten(s, steps, v, q, At(s, steps, v).disk.m);
      DiskMovesForward(s, steps, v, q);
    }
  }

  lemma {:induction false} DiskMovesForward(s: State, steps: seq<Step>, from: nat, end: nat)
    requires Timed(s) && PossibleRun(s, steps) && DiskNeverBackwards(s, steps) && from <= end <= |steps|
    requires At(s, steps, from).disk.Stored?
    ensures At(s, steps, end).disk.Stored? && !NewerThan(At(s, steps, from).disk.m, At(s, steps, end).disk.m)
    decreases end
  {
    hide At;
    if from < end {
      DiskMovesForward(s, steps, from, end - 1);
      RunIsTimed(s, steps, end);
      RunIsTimed(s, steps, end - 1);
      assert !GoesBackwards(At(s, steps, end - 1).disk, At(s, steps, end).disk);
    }
  }

  /** The stale case exists, and the entry stays until it is invalidated again or a refetch
      replaces it: a read in flight across a foreground sync and its invalidation. */
  lemma StaleReadOutlivesInvalidate(stale: Manifest, newer: Manifest, r: int)
    requires stale.indexedAt.Some? && newer.indexedAt.Some? && stale.indexedAt.value < newer.indexedAt.value
    ensures var s := State(Stored(stale), None, map[], NoRefetch);
            var steps := [ReadDisk(r), Foreground(newer), Invalidate, Install(r)];
            && PossibleRun(s, steps) && !Overtaken(steps)
            && At(s, steps, 4).cached == Some(stale) && At(s, steps, 4).disk == Stored(newer)
  {
    var s := State(Stored(stale), None, map[], NoRefetch);
    var steps := [ReadDisk(r), Foreground(newer), Invalidate, Install(r)];
    AtNext(s, steps, 0);
    AtNext(s, steps, 1);
    AtNext(s, steps, 2);
    AtNext(s, steps, 3);
    hide At;
  }

  lemma {:induction false} EntryStays(s: State, steps: seq<Step>, from: nat, end: nat)
    requires from <= end <= |steps| && At(s, steps, from).cached.Some?
    requires forall l :: from <= l < end ==> steps[l] != Invalidate && steps[l] != Rename(true)
    ensures At(s, steps, end).cached == At(s, steps, from).cached
    decreases end
  {
    if from < end {
      EntryStays(s, steps, from, end - 1);
    }
  }

  // ---- When the cache entry goes back ---------------------------------------

  /** The step that put the present entry there. */
  lemma {:induction false} EntrySource(s: State, steps: seq<Step>, k: nat) returns (p: nat)
    requires Fresh(s) && PossibleRun(s, steps) && k <= |steps| && At(s, steps, k).cached.Some?
    ensures p < k && At(s, steps, k).cached == At(s, steps, p + 1).cached
    ensures (steps[p].Install? && At(s, steps, p).cached.None?) || steps[p] == Rename(true)
    ensures forall l :: p < l < k ==> steps[l] != Invalidate && steps[l] != Rename(true)
  {
    hide At;
    AtNext(s, steps, 0);
    AtNext(s, steps, k - 1);
    assert Enabled(At(s, steps, k - 1), steps[k - 1]);
    hide PossibleRun;
    if steps[k - 1] == Rename(true) || (steps[k - 1].Install? && At(s, steps, k - 1).cached.None?) {
      p := k - 1;
    } else {
      p := EntrySource(s, steps, k - 1);
    }
  }

  /** Without a successful rename the disk only moves forward. */
  lemma {:induction false} DiskForwardBetween(s: State, steps: seq<Step>, from: nat, end: nat)
    requires Timed(s) && PossibleRun(s, steps) && from <= end <= |steps|
    requires forall l :: from <= l < end ==> steps[l] != Rename(true)
    ensures !GoesBackwards(At(s, steps, from).disk, At(s, steps, end).disk)
    decreases end
  {
    hide At;
    if from < end {
      DiskForwardBetween(s, steps, from, end - 1);
      AtNext(s, steps, end - 1);
      RunIsTimed(s, steps, end - 1);
      RunIsTimed(s, steps, from);
      RunIsTimed(s, steps, end);
      assert Enabled(At(s, steps, end - 1), steps[end - 1]) && WellTimed(At(s, steps, end - 1), steps[end - 1]);
      hide PossibleRun;
    }
  }

  /** The entry was installed at `p` into an empty cache, from a read at `q` that was newer than
      the manifest that was fetched at `f`, compared at `c` and is renamed at `k`. */
  predicate RenamedUnder(s: State, steps: seq<Step>, k: nat, p: nat, q: nat, f: nat, c: nat) {
    && p < k < |steps| && steps[k] == Rename(true) && OneRefetch(steps, f, c, k)
    && ReadFor(steps, q, p) && At(s, steps, p).cached.None?
    && (forall l :: p < l < k ==> steps[l] != Invalidate && steps[l] != Rename(true))
    && At(s, steps, q).disk.Stored? && NewerThan(At(s, steps, q).disk.m, steps[f].m)
  }

  lemma InstalledEntry(s: State, steps: seq<Step>, q: nat, p: nat)
    requires Fresh(s) && PossibleRun(s, steps) && p < |steps| && ReadFor(steps, q, p) && At(s, steps, p).cached.None?
    ensures At(s, steps, q).disk.Stored? && At(s, steps, p + 1).cached == Some(At(s, steps, q).disk.m)
  {
    hide At;
    AtNext(s, steps, p);
    assert Enabled(At(s, steps, p), steps[p]) && Enabled(At(s, steps, q), steps[q]);
    var q' := InFlightSince(s, steps, steps[p].reader, p);
    assert q == q';
  }

  lemma RenameUnderGoesBack(s: State, steps: seq<Step>, k: nat, p: nat, q: nat, f: nat, c: nat)
    requires Fresh(s) && PossibleRun(s, steps) && RenamedUnder(s, steps, k, p, q, f, c)
    ensures At(s, steps, k).cached.Some? && At(s, steps, k + 1).cached.Some?
    ensures NewerThan(At(s, steps, k).cached.value, At(s, steps, k + 1).cached.value)
  {
    hide At, PossibleRun, OneRefetch, ReadFor, Fresh, DiskIsNewer;
    InstalledEntry(s, steps, q, p);
    EntryStays(s, steps, p + 1, k);
    RefetchAt(s, steps, f, c, k);
    AtNext(s, steps, k);
  }

  /** An entry that a rename put there is not newer than what the next rename puts there. */
  lemma RenameAfterRename(s: State, steps: seq<Step>, p: nat, k: nat, f: nat, c: nat)
    requires Fresh(s) && PossibleRun(s, steps) && p < k < |steps|
    requires steps[p] == Rename(true) && steps[k] == Rename(true) && OneRefetch(steps, f, c, k)
    requires forall l :: p < l < k ==> steps[l] != Rename(true)
    ensures At(s, steps, p + 1).cached.Some? && !NewerThan(At(s, steps, p + 1).cached.value, steps[f].m)
  {
    hide At, OneRefetch, GoesBackwards, DiskIsNewer, NewerThan, Quiet;
    AtNext(s, steps, p);
    assert Enabled(At(s, steps, p), steps[p]);
    RefetchAt(s, steps, f, c, k);
    RefetchOrder(steps, p, f, c, k);
    RunIsTimed(s, steps, p + 1);
    RunIsTimed(s, steps, c + 1);
    DiskForwardBetween(s, steps, p + 1, c + 1);
    hide PossibleRun, Fresh;
    StillNotNewer(At(s, steps, p + 1).disk, At(s, steps, c + 1).disk, steps[f].m);
  }

  lemma RefetchOrder(steps: seq<Step>, p: nat, f: nat, c: nat, k: nat)
    requires p < k <= |steps| && OneRefetch(steps, f, c, k) && steps[p].Rename?
    ensures p < f < c < k && steps[f].Fetch?
  {
    assert f < p < c ==> OfRefetch(steps[p]);
    assert c < p < k ==> OfRefetch(steps[p]);
  }

  lemma StillNotNewer(before: File, after: File, m: Manifest)
    requires before.Stored? && Parsable(before) && Parsable(after) && m.indexedAt.Some?
    requires !GoesBackwards(before, after) && !DiskIsNewer(after, m)
    ensures !NewerThan(before.m, m)
  {
  }

  /** In every run, overtaken or not: apart from invalidations, a step takes the entry back
      exactly when it renames a manifest under an entry that was installed from a newer read. */
  lemma EntryGoesBackIff(s: State, steps: seq<Step>, k: nat)
    requires Fresh(s) && PossibleRun(s, steps) && k < |steps|
    requires At(s, steps, k).cached.Some? && steps[k] != Invalidate
    ensures At(s, steps, k + 1).cached.Some?
    ensures NewerThan(At(s, steps, k).cached.value, At(s, steps, k + 1).cached.value) <==>
              exists p: nat, q: nat, f: nat, c: nat :: RenamedUnder(s, steps, k, p, q, f, c)
  {
    CachedAfter(s, steps, k);
    hide At, Fresh, PossibleRun, RenamedUnder;
    if exists p: nat, q: nat, f: nat, c: nat :: RenamedUnder(s, steps, k, p, q, f, c) {
      var p: nat, q: nat, f: nat, c: nat :| RenamedUnder(s, steps, k, p, q, f, c);
      RenameUnderGoesBack(s, steps, k, p, q, f, c);
    }
    if NewerThan(At(s, steps, k).cached.value, At(s, steps, k + 1).cached.value) {
      var p, q, f, c := SourceOfBackStep(s, steps, k);
    }
  }

  lemma CachedAfter(s: State, steps: seq<Step>, k: nat)
    requires PossibleRun(s, steps) && k < |steps| && At(s, steps, k).cached.Some? && steps[k] != Invalidate
    ensures At(s, steps, k + 1).cached.Some?
    ensures steps[k] != Rename(true) ==> At(s, steps, k + 1).cached == At(s, steps, k).cached
    ensures steps[k] == Rename(true) ==>
              At(s, steps, k).refetch.Checked? && At(s, steps, k + 1).cached == Some(At(s, steps, k).refetch.m)
  {
    AtNext(s, steps, k);
    hide At;
    assert Enabled(At(s, steps, k), steps[k]);
  }

  lemma SourceOfBackStep(s: State, steps: seq<Step>, k: nat) returns (p: nat, q: nat, f: nat, c: nat)
    requires Fresh(s) && PossibleRun(s, steps) && k < |steps|
    requires At(s, steps, k).cached.Some? && steps[k] != Invalidate && At(s, steps, k + 1).cached.Some?
    requires NewerThan(At(s, steps, k).cached.value, At(s, steps, k + 1).cached.value)
    ensures RenamedUnder(s, steps, k, p, q, f, c)
  {
    hide At;
    CachedAfter(s, steps, k);
    assert steps[k] == Rename(true);
    f, c := CheckedAt(s, steps, k);
    p := EntrySource(s, steps, k);
    if steps[p] == Rename(true) {
      RenameAfterRename(s, steps, p, k, f, c);
      assert false;
    } else {
      AtNext(s, steps, p);
      assert Enabled(At(s, steps, p), steps[p]);
      q := InFlightSince(s, steps, steps[p].reader, p);
      hide PossibleRun, OneRefetch;
    }
  }

  /** It takes an earlier overtaken rename after that read, and an invalidation between that
      rename and the installation. */
  lemma EntryGoesBackNeeds(s: State, steps: seq<Step>, k: nat, p: nat, q: nat, f: nat, c: nat)
    returns (f1: nat, c1: nat, j1: nat, k1: nat, i: nat)
    requires Fresh(s) && PossibleRun(s, steps) && RenamedUnder(s, steps, k, p, q, f, c)
    ensures q < k1 < i < p && OvertakenAt(steps, f1, c1, j1, k1) && steps[i] == Invalidate
  {
    hide At;
    RefetchAt(s, steps, f, c, k);
    InstallNotWhileChecked(s, steps, p, f, c, k);
    k1 := BackStepBetween(s, steps, q, c + 1);
    f1, c1, j1 := BackwardsRenameIsOvertaken(s, steps, k1);
    AtNext(s, steps, k1);
    assert Enabled(At(s, steps, k1), steps[k1]);
    assert q < k1 < p;
    i := InvalidatedBetween(s, steps, k1 + 1, p);
  }

  lemma InstallNotWhileChecked(s: State, steps: seq<Step>, p: nat, f: nat, c: nat, k: nat)
    requires Fresh(s) && PossibleRun(s, steps) && p < k < |steps| && steps[p].Install?
    requires OneRefetch(steps, f, c, k) && steps[k].Rename?
    ensures p < c
  {
    hide At;
    RefetchAt(s, steps, f, c, k);
    assert Enabled(At(s, steps, p), steps[p]);
    if c < p {
      QuietRun(s, steps, c + 1, p);
    }
  }

  lemma {:induction false} BackStepBetween(s: State, steps: seq<Step>, from: nat, end: nat) returns (k: nat)
    requires Timed(s) && PossibleRun(s, steps) && from <= end <= |steps|
    requires GoesBackwards(At(s, steps, from).disk, At(s, steps, end).disk)
    ensures from <= k < end && GoesBackwards(At(s, steps, k).disk, At(s, steps, k + 1).disk)
    decreases end
  {
    hide At;
    RunIsTimed(s, steps, from);
    RunIsTimed(s, steps, end);
    RunIsTimed(s, steps, end - 1);
    hide PossibleRun;
    if GoesBackwards(At(s, steps, end - 1).disk, At(s, steps, end).disk) {
      k := end - 1;
    } else {
      k := BackStepBetween(s, steps, from, end - 1);
    }
  }

  lemma {:induction false} InvalidatedBetween(s: State, steps: seq<Step>, from: nat, end: nat) returns (i: nat)
    requires PossibleRun(s, steps) && from <= end <= |steps|
    requires At(s, steps, from).cached.Some? && At(s, steps, end).cached.None?
    ensures from <= i < end && steps[i] == Invalidate
    decreases end
  {
    hide At;
    if steps[end - 1] == Invalidate {
      i := end - 1;
    } else {
      if At(s, steps, end - 1).cached.Some? { CachedAfter(s, steps, end - 1); }
      i := InvalidatedBetween(s, steps, from, end - 1);
    }
  }

  /** Such a run: a lost sync is read before it is lost, installed after an invalidation, and
      replaced by a refetch that is newer than the disk and older than the entry. */
  lemma EntryCanGoBack(m1: Manifest, m2: Manifest, m3: Manifest, m5: Manifest, r: int)
    requires m1.indexedAt == Some(1) && m2.indexedAt == Some(2) && m3.indexedAt == Some(3) && m5.indexedAt == Some(5)
    ensures var s := State(Stored(m1), None, map[], NoRefetch);
            var steps := [Fetch(m2), Check, Foreground(m5), ReadDisk(r), Rename(true), Invalidate, Install(r),
                          Fetch(m3), Check, Rename(true)];
            && Fresh(s) && PossibleRun(s, steps) && Invalidate !in steps[7..]
            && At(s, steps, 7).cached == Some(m5) && At(s, steps, 10).cached == Some(m3)
  {
    var s := State(Stored(m1), None, map[], NoRefetch);
    var steps := [Fetch(m2), Check, Foreground(m5), ReadDisk(r), Rename(true), Invalidate, Install(r),
                  Fetch(m3), Check, Rename(true)];
    AtNext(s, steps, 0);
    AtNext(s, steps, 1);
    AtNext(s, steps, 2);
    AtNext(s, steps, 3);
    AtNext(s, steps, 4);
    AtNext(s, steps, 5);
    AtNext(s, steps, 6);
    AtNext(s, steps, 7);
    AtNext(s, steps, 8);
    AtNext(s, steps, 9);
    hide At;
    assert steps[7..] == [Fetch(m3), Check, Rename(true)];
  }

  // ---- The window between comparison and rename -----------------------------

  /** The window exists: a foreground sync between comparison and rename is lost. */
  lemma OvertakingLosesASync(stale: Manifest, fetched: Manifest, newer: Manifest)
    requires stale.indexedAt == Some(1) && fetched.indexedAt == Some(2) && newer.indexedAt == Some(3)
    ensures var s := State(Stored(stale), None, map[], NoRefetch);
            var steps := [Fetch(fetched), Check, Foreground(newer), Rename(true)];
            PossibleRun(s, steps) && At(s, steps, 4).disk == Stored(fetched) && !DiskNeverBackwards(s, steps)
  {
    var s := State(Stored(stale), None, map[], NoRefetch);
    var steps := [Fetch(fetched), Check, Foreground(newer), Rename(true)];
    AtNext(s, steps, 0);
    AtNext(s, steps, 1);
    AtNext(s, steps, 2);
    AtNext(s, steps, 3);
    hide At;
    assert GoesBackwards(At(s, steps, 3).disk, At(s, steps, 4).disk);
  }

  /** With the comparison and the rename in one step, the disk goes backwards exactly when the
      fetched timestamp cannot be parsed and the stored one can. */
  lemma AtomicCommitBackwardsIff(s: State)
    requires s.refetch.Fetched? && s.disk.Stored?
    ensures var s1 := Next(s, Check);
            var s2 := if s1.refetch.Checked? then Next(s1, Rename(true)) else s1;
            GoesBackwards(s.disk, s2.disk) <==> s.refetch.m.indexedAt.None? && s.disk.m.indexedAt.Some?
  {
  }

  // ---- Refetches land -------------------------------------------------------

  /** An undisturbed commit stores and caches what was fetched, over a missing, unreadable or corrupt
      file too, unless the rename fails or the disk holds a parsable timestamp strictly later than a
      parsable one of the refetch; then it changes nothing. */
  lemma CommitLandsIff(s: State, renameOk: bool)
    requires s.refetch.Fetched?
    ensures var s1 := Next(s, Check);
            var s2 := if s1.refetch.Checked? then Next(s1, Rename(renameOk)) else s1;
            var m := s.refetch.m;
            var later := s.disk.Stored? && s.disk.m.indexedAt.Some? && m.indexedAt.Some?
              && s.disk.m.indexedAt.value > m.indexedAt.value;
            s2 == if renameOk && !later
                  then State(Stored(m), Some(m), s.inFlight, NoRefetch)
                  else State(s.disk, s.cached, s.inFlight, NoRefetch)
  {
  }

  /** Amid any other steps, a refetch that was fetched at `f` and compared at `c` gets to its rename
      exactly unless the disk was strictly later when the two were compared, and its rename lands. */
  lemma RefetchLandsIff(s: State, steps: seq<Step>, f: nat, c: nat, k: nat)
    requires Timed(s) && PossibleRun(s, steps) && k <= |steps| && OneRefetch(steps, f, c, k)
    ensures var compared, fetched := At(s, steps, c).disk, steps[f].m.indexedAt;
            fetched.Some? &&
            (Enabled(At(s, steps, k), Rename(true)) <==>
               !(compared.Stored? && compared.m.indexedAt.Some? && compared.m.indexedAt.value > fetched.value))
    ensures Enabled(At(s, steps, k), Rename(true)) ==>
              var s' := Next(At(s, steps, k), Rename(true));
              s'.disk == Stored(steps[f].m) && s'.cached == Some(steps[f].m) && s'.refetch.NoRefetch?
    ensures Next(At(s, steps, k), Rename(false)).disk == At(s, steps, k).disk
    ensures Next(At(s, steps, k), Rename(false)).cached == At(s, steps, k).cached
  {
    hide At;
    AtNext(s, steps, f);
    AtNext(s, steps, c);
    QuietRun(s, steps, f + 1, c);
    QuietRun(s, steps, c + 1, k);
    assert Enabled(At(s, steps, f), steps[f]) && Enabled(At(s, steps, c), steps[c]);
    hide PossibleRun;
  }

  // ---- The cache object -----------------------------------------------------

  class Disk {
    var files: map<string, File>

    constructor (files: map<string, File>)
      ensures this.files == files
    {
      this.files := files;
    }

    function At(ws: string): File
      reads this
    {
      if ws in files then files[ws] else Missing
    }
  }

  datatype GetResult = Hit(m: Manifest) | ReadError(kicksRefetch: bool) | ParseError

  class Cache {
    var cache: map<string, Manifest>
    const hasFetcher: bool

    constructor (hasFetcher: bool)
      ensures cache == map[] && this.hasFetcher == hasFetcher
    {
      cache := map[];
      this.hasFetcher := hasFetcher;
    }

    function Entry(ws: string): Option<Manifest>
      reads this
    {
      if ws in cache then Some(cache[ws]) else None
    }

    /** Workspace `ws` as a state of the transition system, with the given steps in flight. */
    function View(ws: string, disk: Disk, inFlight: map<int, Manifest>, refetch: Refetch): State
      reads this, disk
    {
      State(disk.At(ws), Entry(ws), inFlight, refetch)
    }

    /** The part of `Get` under the lock: the first installed manifest is shared by everybody. */
    method InstallRead(ws: string, m: Manifest) returns (shared: Manifest)
      modifies this
      ensures shared == if ws in old(cache) then old(cache)[ws] else m
      ensures cache == old(cache)[ws := shared]
    {
      if ws in cache {
        return cache[ws];
      }
      cache := cache[ws := m];
      shared := m;
    }

    /** `Get`, undisturbed. */
    method Get(ws: string, disk: Disk) returns (r: GetResult)
      modifies this
      ensures forall other :: other != ws ==> Entry(other) == old(Entry(other))
      ensures match r
              case Hit(m) =>
                && Entry(ws) == Some(m)
                && (old(Entry(ws)).Some? ==> cache == old(cache))
                && (old(Entry(ws)).None? ==>
                      && Enabled(old(View(ws, disk, map[], NoRefetch)), ReadDisk(0))
                      && var s1 := Next(old(View(ws, disk, map[], NoRefetch)), ReadDisk(0));
                      View(ws, disk, map[], NoRefetch) == Next(s1, Install(0)))
              case ReadError(kicks) =>
                && cache == old(cache) && ws !in cache && (disk.At(ws).Missing? || disk.At(ws).Unreadable?)
                && (kicks <==> disk.At(ws).Missing? && hasFetcher)
              case ParseError => cache == old(cache) && ws !in cache && disk.At(ws).Corrupt?
    {
      if ws in cache {
        return Hit(cache[ws]);
      }
      match disk.At(ws) {
        case Missing => return ReadError(hasFetcher);
        case Unreadable => return ReadError(false);
        case Corrupt => return ParseError;
        case Stored(m) =>
          var shared := InstallRead(ws, m);
          return Hit(shared);
      }
    }

    /** The critical section of `kickRefetch`, with nothing in between. */
    method CommitRefetch(ws: string, m: Manifest, disk: Disk, renameOk: bool) returns (written: bool)
      modifies this, disk
      ensures forall other :: other != ws ==> Entry(other) == old(Entry(other)) && disk.At(other) == old(disk.At(other))
      ensures var s1 := Next(old(View(ws, disk, map[], Fetched(m))), Check);
              var s2 := if s1.refetch.Checked? then Next(s1, Rename(renameOk)) else s1;
              View(ws, disk, map[], NoRefetch) == s2
      ensures var before := old(disk.At(ws));
              written <==> renameOk && !(before.Stored? && before.m.indexedAt.Some? && m.indexedAt.Some?
                                         && before.m.indexedAt.value > m.indexedAt.value)
      ensures written ==> disk.At(ws) == Stored(m) && Entry(ws) == Some(m)
      ensures !written ==> disk.files == old(disk.files) && cache == old(cache)
    {
      var existing := disk.At(ws);
      if existing.Stored? && existing.m.indexedAt.Some? && m.indexedAt.Some? {
        if existing.m.indexedAt.value > m.indexedAt.value {
          return false;
        }
      }
      if !renameOk {
        return false;
      }
      disk.files := disk.files[ws := Stored(m)];
      cache := cache[ws := m];
      written := true;
    }

    /** `Invalidate`. */
    method Drop(ws: string)
      modifies this
      ensures cache == old(cache) - {ws}
      ensures forall disk :: old(allocated(disk)) ==>
                View(ws, disk, map[], NoRefetch) == Next(old(View(ws, disk, map[], NoRefetch)), Invalidate)
    {
      cache := cache - {ws};
    }
  }
}
