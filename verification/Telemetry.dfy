/** The telemetry ledger: events recorded in a table, aggregated into buckets, handed to a
    send function and marked as flushed (internal/tracker/tracker.go,
    internal/telemetry/batcher.go). */
module Telemetry {
  import opened Options

  datatype Event = Event(ts: string, source: string, filter: Option<string>, model: Option<string>,
                         estimation: Option<string>, input: int, output: int, saved: int)

  datatype Row = Row(id: int, event: Event, flushed: bool)

  datatype Key = Key(day: string, source: string, filter: Option<string>, model: Option<string>,
                     estimation: Option<string>)

  datatype Totals = Totals(n: int, input: int, output: int, saved: int) {
    function Plus(other: Totals): Totals {
      Totals(n + other.n, input + other.input, output + other.output, saved + other.saved)
    }

    function Times(w: int): Totals { Totals(w * n, w * input, w * output, w * saved) }
  }

  const ZERO := Totals(0, 0, 0, 0)

  datatype Bucket<K> = Bucket(key: K, totals: Totals)

  /** The aggregation slices the day out of the timestamp; a shorter one makes it panic. */
  predicate Dated(rows: seq<Row>) { forall r :: r in rows ==> |r.event.ts| >= 10 }

  function KeyOf(e: Event): Key {
    Key(if |e.ts| >= 10 then e.ts[..10] else e.ts, e.source, e.filter, e.model, e.estimation)
  }

  function ValueOf(e: Event): Totals { Totals(1, e.input, e.output, e.saved) }

  // ---- Sums over the table --------------------------------------------------

  /** The events of key `k`, each counted `w` times. */
  function Weighted(rows: seq<Row>, k: Key, w: Row -> int): Totals {
    if rows == [] then ZERO
    else
      var n := |rows| - 1;
      Weighted(rows[..n], k, w).Plus(Share(rows[n], k).Times(w(rows[n])))
  }

  function TotalsOf(rows: seq<Row>, k: Key): Totals {
    if rows == [] then ZERO
    else
      var n := |rows| - 1;
      TotalsOf(rows[..n], k).Plus(Share(rows[n], k))
  }

  function Share(r: Row, k: Key): Totals { if KeyOf(r.event) == k then ValueOf(r.event) else ZERO }

  function Unflushed(rows: seq<Row>): seq<Row> {
    if rows == [] then []
    else
      var n := |rows| - 1;
      Unflushed(rows[..n]) + if rows[n].flushed then [] else [rows[n]]
  }

  function Ids(rows: seq<Row>): (r: seq<int>)
    ensures |r| == |rows|
    ensures forall i :: 0 <= i < |r| ==> r[i] == rows[i].id
  {
    seq(|rows|, i requires 0 <= i < |rows| => rows[i].id)
  }

  function SetFlushed(rows: seq<Row>, ids: set<int>): (r: seq<Row>)
    ensures |r| == |rows|
    ensures forall i :: 0 <= i < |r| ==> r[i] == rows[i].(flushed := rows[i].flushed || rows[i].id in ids)
  {
    seq(|rows|, i requires 0 <= i < |rows| => rows[i].(flushed := rows[i].flushed || rows[i].id in ids))
  }

  /** Identifiers are handed out in increasing order and never reused. */
  ghost predicate Increasing(rows: seq<Row>, nextId: int) {
    && (forall i, j :: 0 <= i < j < |rows| ==> rows[i].id < rows[j].id)
    && (forall r :: r in rows ==> r.id < nextId)
  }

  /** One bucket per key that occurs, with the totals of its rows. */
  ghost predicate IsAggregate(buckets: seq<Bucket<Key>>, rows: seq<Row>) {
    && (forall i, j :: 0 <= i < j < |buckets| ==> buckets[i].key != buckets[j].key)
    && (forall b :: b in buckets ==> b.totals == TotalsOf(rows, b.key))
    && (forall k :: TotalsOf(rows, k).n > 0 <==> exists b :: b in buckets && b.key == k)
  }

  // ---- The tracker ----------------------------------------------------------

  const MARK_FLUSHED_CHUNK: nat := 500

  /** How many of the identifiers have been marked when the first chunk update fails. */
  function MarkedCount(total: nat, start: nat, chunkOk: nat -> bool): (r: nat)
    requires start <= total
    ensures start <= r <= total
    decreases total - start
  {
    if start == total || !chunkOk(start / MARK_FLUSHED_CHUNK) then start
    else MarkedCount(total, if start + MARK_FLUSHED_CHUNK <= total then start + MARK_FLUSHED_CHUNK else total, chunkOk)
  }

  function SetOf(ids: seq<int>): set<int> { set i | i in ids }

  /** The sums, taken apart at the last row. */
  lemma {:induction false} LastRow(rows: seq<Row>, r: Row, k: Key, w: Row -> int)
    ensures TotalsOf(rows + [r], k) == TotalsOf(rows, k).Plus(Share(r, k))
    ensures Weighted(rows + [r], k, w) == Weighted(rows, k, w).Plus(Share(r, k).Times(w(r)))
    ensures Unflushed(rows + [r]) == if r.flushed then Unflushed(rows) else Unflushed(rows) + [r]
  {
    assert (rows + [r])[..|rows|] == rows;
  }

  lemma {:induction false} NothingTotals(k: Key, w: Row -> int)
    ensures TotalsOf([], k) == Weighted([], k, w) == ZERO && Unflushed([]) == []
  {
  }

  lemma {:induction false} UnflushedHas(rows: seq<Row>, r: Row)
    ensures r in Unflushed(rows) <==> r in rows && !r.flushed
  {
    hide Unflushed;
    NothingTotals(KeyOf(r.event), One());
    if rows != [] {
      var n := |rows| - 1;
      UnflushedHas(rows[..n], r);
      assert rows == rows[..n] + [rows[n]];
      LastRow(rows[..n], rows[n], KeyOf(r.event), One());
    }
  }

  /** Counts are natural, and a count of zero leaves nothing to sum up. */
  predicate Natural(t: Totals) { t.n >= 0 && (t.n == 0 ==> t == ZERO) }

  lemma ShareIsNatural(r: Row, k: Key)
    ensures Natural(Share(r, k)) && Share(r, k) == if k == KeyOf(r.event) then ValueOf(r.event) else ZERO
  {
    hide KeyOf;
  }

  lemma NothingAddsUpToZero(a: Totals, b: Totals)
    requires Natural(a) && Natural(b)
    ensures a.Plus(b).n >= 0 && (a.Plus(b).n == 0 ==> a == ZERO && b == ZERO)
  {
  }

  lemma ZeroPlusZero()
    ensures ZERO.Plus(ZERO) == ZERO
  {
  }

  lemma {:induction false} CountsAreNatural(rows: seq<Row>, k: Key)
    ensures Natural(TotalsOf(rows, k))
  {
    hide Share, Totals.Plus;
    if rows != [] {
      var n := |rows| - 1;
      CountsAreNatural(rows[..n], k);
      ShareIsNatural(rows[n], k);
      NothingAddsUpToZero(TotalsOf(rows[..n], k), Share(rows[n], k));
      ZeroPlusZero();
    }
  }

  class Tracker {
    var rows: seq<Row>
    var nextId: int

    ghost predicate Valid()
      reads this
    {
      Increasing(rows, nextId)
    }

    constructor ()
      ensures Valid() && rows == []
    {
      rows, nextId := [], 1;
    }

    /** `Record`. */
    method Record(e: Event)
      requires Valid()
      modifies this
      ensures Valid()
      ensures rows == old(rows) + [Row(old(nextId), e, false)] && nextId == old(nextId) + 1
    {
      rows := rows + [Row(nextId, e, false)];
      nextId := nextId + 1;
    }

    /** `UnsentBuckets`: the buckets come out in the unspecified order of a Go map. */
    method UnsentBuckets() returns (buckets: seq<Bucket<Key>>, ids: seq<int>)
      requires Dated(Unflushed(rows))
      ensures IsAggregate(buckets, Unflushed(rows)) && ids == Ids(Unflushed(rows))
      ensures Reports(buckets, Unflushed(rows))
    {
      hide TotalsOf, Unflushed, Reports;
      var unsent := Unflushed(rows);
      var agg: map<Key, Bucket<Key>> := map[];
      ids := [];
      forall k ensures TotalsOf([], k) == ZERO { NothingTotals(k, One()); }
      for i := 0 to |unsent|
        invariant ids == Ids(unsent[..i])
        invariant forall k :: k in agg <==> TotalsOf(unsent[..i], k).n > 0
        invariant forall k :: k in agg ==> agg[k] == Bucket(k, TotalsOf(unsent[..i], k))
      {
        assert unsent[..i + 1] == unsent[..i] + [unsent[i]];
        forall k
          ensures TotalsOf(unsent[..i + 1], k) == TotalsOf(unsent[..i], k).Plus(Share(unsent[i], k))
          ensures TotalsOf(unsent[..i], k).n >= 0
          ensures TotalsOf(unsent[..i], k).n == 0 ==> TotalsOf(unsent[..i], k) == ZERO
        {
          LastRow(unsent[..i], unsent[i], k, One());
          CountsAreNatural(unsent[..i], k);
        }
        var e := unsent[i].event;
        ids := ids + [unsent[i].id];
        var k := KeyOf(e);
        var b := if k in agg then agg[k] else Bucket(k, ZERO);
        agg := agg[k := b.(totals := b.totals.Plus(ValueOf(e)))];
      }
      assert unsent[..|unsent|] == unsent;
      buckets := [];
      var rest := agg.Keys;
      while rest != {}
        invariant rest <= agg.Keys
        invariant forall b :: b in buckets <==> b.key in agg.Keys - rest && b == agg[b.key]
        invariant forall i, j :: 0 <= i < j < |buckets| ==> buckets[i].key != buckets[j].key
      {
        var k :| k in rest;
        buckets := buckets + [agg[k]];
        rest := rest - {k};
      }
      forall k | TotalsOf(unsent, k).n > 0 ensures exists b :: b in buckets && b.key == k { assert agg[k] in buckets; }
      AggregateReports(buckets, unsent);
    }

    /** `MarkFlushed`: chunked updates; `chunkOk` says which of them the database accepts. */
    method MarkFlushed(ids: seq<int>, chunkOk: nat -> bool) returns (ok: bool)
      requires Valid()
      modifies this
      ensures Valid() && nextId == old(nextId)
      ensures var done := MarkedCount(|ids|, 0, chunkOk);
              && rows == SetFlushed(old(rows), SetOf(ids[..done])) && ok == (done == |ids|)
              && (forall c: nat :: c * 500 < done ==> chunkOk(c))
              && (done < |ids| ==> done % 500 == 0 && !chunkOk(done / 500))
    {
      MarkedStops(|ids|, 0, chunkOk);
      var start, chunkNo := 0, 0;
      while start < |ids|
        invariant start <= |ids| && (start < |ids| ==> start == chunkNo * MARK_FLUSHED_CHUNK)
        invariant MarkedCount(|ids|, start, chunkOk) == MarkedCount(|ids|, 0, chunkOk)
        invariant rows == SetFlushed(old(rows), SetOf(ids[..start]))
        invariant Valid() && nextId == old(nextId)
      {
        assert start / MARK_FLUSHED_CHUNK == chunkNo;
        var end := if start + MARK_FLUSHED_CHUNK <= |ids| then start + MARK_FLUSHED_CHUNK else |ids|;
        var chunk := ids[start..end];
        if !chunkOk(chunkNo) {
          return false;
        }
        assert ids[..end] == ids[..start] + chunk;
        assert SetOf(ids[..end]) == SetOf(ids[..start]) + SetOf(chunk);
        rows := SetFlushed(rows, SetOf(chunk));
        start, chunkNo := end, chunkNo + 1;
      }
      ok := true;
    }

    /** `tryFlush`, run without interruption: read, send, mark.  `sent` is the batch the send
        function accepted, if any. */
    method TryFlush(send: seq<Bucket<Key>> -> bool, chunkOk: nat -> bool) returns (sent: Option<seq<Bucket<Key>>>)
      requires Valid() && Dated(Unflushed(rows))
      modifies this
      ensures Valid() && nextId == old(nextId)
      ensures sent.None? ==> rows == old(rows)
      ensures sent.Some? ==>
                && IsAggregate(sent.value, old(Unflushed(rows))) && send(sent.value)
                && (var ids := old(Ids(Unflushed(rows)));
                    rows == SetFlushed(old(rows), SetOf(ids[..MarkedCount(|ids|, 0, chunkOk)])))
      ensures sent.None? && old(Unflushed(rows)) != [] ==>
                exists buckets :: IsAggregate(buckets, old(Unflushed(rows))) && !send(buckets)
    {
      var buckets, ids := UnsentBuckets();
      if |buckets| == 0 {
        NoBucketsMeansNoRows(buckets, Unflushed(rows));
        return None;
      }
      if !send(buckets) {
        return None;
      }
      var _ := MarkFlushed(ids, chunkOk);
      return Some(buckets);
    }
  }

  lemma {:induction false} RowIsCounted(rows: seq<Row>, r: Row)
    requires r in rows
    ensures TotalsOf(rows, KeyOf(r.event)).n > 0
  {
    hide TotalsOf;
    var n := |rows| - 1;
    assert rows == rows[..n] + [rows[n]];
    LastRow(rows[..n], rows[n], KeyOf(r.event), One());
    CountsAreNatural(rows[..n], KeyOf(r.event));
    if r != rows[n] {
      RowIsCounted(rows[..n], r);
    }
  }

  lemma NoBucketsMeansNoRows(buckets: seq<Bucket<Key>>, rows: seq<Row>)
    requires IsAggregate(buckets, rows) && buckets == []
    ensures rows == []
  {
    if rows != [] {
      RowIsCounted(rows, rows[0]);
    }
  }

  // ---- What a bucket reports ------------------------------------------------

  /** The event has this day, source, filter, model and estimation. */
  predicate Belongs(e: Event, k: Key) {
    && |e.ts| >= 10 && e.ts[..10] == k.day
    && e.source == k.source && e.filter == k.filter && e.model == k.model && e.estimation == k.estimation
  }

  function Sum(rows: seq<Row>, k: Key, part: Event -> int): int {
    if rows == [] then 0
    else
      var n := |rows| - 1;
      Sum(rows[..n], k, part) + if Belongs(rows[n].event, k) then part(rows[n].event) else 0
  }

  function Count(rows: seq<Row>, k: Key): nat { |set i | 0 <= i < |rows| && Belongs(rows[i].event, k)| }

  /** No two buckets are alike, each carries the number and the three sums of the events that
      belong to it, and every event belongs to one. */
  ghost predicate Reports(buckets: seq<Bucket<Key>>, rows: seq<Row>) {
    && (forall i, j :: 0 <= i < j < |buckets| ==> buckets[i].key != buckets[j].key)
    && (forall b :: b in buckets ==>
          && b.totals.n == Count(rows, b.key) > 0
          && b.totals.input == Sum(rows, b.key, (e: Event) => e.input)
          && b.totals.output == Sum(rows, b.key, (e: Event) => e.output)
          && b.totals.saved == Sum(rows, b.key, (e: Event) => e.saved))
    && (forall r :: r in rows ==> exists b :: b in buckets && Belongs(r.event, b.key))
  }

  lemma {:induction false} SumIsTotal(rows: seq<Row>, k: Key, part: Event -> int)
    requires Dated(rows)
    ensures (forall e :: part(e) == e.input) ==> TotalsOf(rows, k).input == Sum(rows, k, part)
    ensures (forall e :: part(e) == e.output) ==> TotalsOf(rows, k).output == Sum(rows, k, part)
    ensures (forall e :: part(e) == e.saved) ==> TotalsOf(rows, k).saved == Sum(rows, k, part)
  {
    if rows != [] {
      SumIsTotal(rows[..|rows| - 1], k, part);
    }
  }

  lemma {:induction false} CountIsTotal(rows: seq<Row>, k: Key)
    requires Dated(rows)
    ensures TotalsOf(rows, k).n == Count(rows, k)
  {
    hide Belongs;
    if rows != [] {
      var n := |rows| - 1;
      CountIsTotal(rows[..n], k);
      CountGrows(rows, k);
      assert Belongs(rows[n].event, k) <==> KeyOf(rows[n].event) == k by { KeyMeans(rows[n].event, k); }
    }
    hide Count;
  }

  lemma KeyMeans(e: Event, k: Key)
    requires |e.ts| >= 10
    ensures Belongs(e, k) <==> KeyOf(e) == k
  {
  }

  lemma CountGrows(rows: seq<Row>, k: Key)
    requires rows != []
    ensures var n := |rows| - 1;
            Count(rows, k) == Count(rows[..n], k) + if Belongs(rows[n].event, k) then 1 else 0
  {
    var n := |rows| - 1;
    var before := set i | 0 <= i < |rows[..n]| && Belongs(rows[..n][i].event, k);
    assert (set i | 0 <= i < |rows| && Belongs(rows[i].event, k))
        == if Belongs(rows[n].event, k) then before + {n} else before;
  }

  lemma AggregateReports(buckets: seq<Bucket<Key>>, rows: seq<Row>)
    requires IsAggregate(buckets, rows) && Dated(rows)
    ensures Reports(buckets, rows)
  {
    hide TotalsOf, Sum, Count;
    forall k
      ensures TotalsOf(rows, k).n == Count(rows, k)
      ensures TotalsOf(rows, k).input == Sum(rows, k, (e: Event) => e.input)
      ensures TotalsOf(rows, k).output == Sum(rows, k, (e: Event) => e.output)
      ensures TotalsOf(rows, k).saved == Sum(rows, k, (e: Event) => e.saved)
    {
      CountIsTotal(rows, k);
      SumIsTotal(rows, k, (e: Event) => e.input);
      SumIsTotal(rows, k, (e: Event) => e.output);
      SumIsTotal(rows, k, (e: Event) => e.saved);
    }
    forall r | r in rows ensures exists b :: b in buckets && Belongs(r.event, b.key) {
      RowIsCounted(rows, r);
      var b :| b in buckets && b.key == KeyOf(r.event);
      assert Belongs(r.event, b.key);
    }
  }

  /** Two events are reported in one bucket exactly when their days, sources, filters, models and
      estimations agree. */
  lemma SharedBucketIff(buckets: seq<Bucket<Key>>, rows: seq<Row>, r: Row, q: Row)
    requires IsAggregate(buckets, rows) && Dated(rows) && r in rows && q in rows
    ensures (exists b :: b in buckets && Belongs(r.event, b.key) && Belongs(q.event, b.key)) <==>
              && r.event.ts[..10] == q.event.ts[..10] && r.event.source == q.event.source
              && r.event.filter == q.event.filter && r.event.model == q.event.model
              && r.event.estimation == q.event.estimation
  {
    AggregateReports(buckets, rows);
    hide IsAggregate, KeyOf, Sum, Count;
    var b :| b in buckets && Belongs(r.event, b.key);
  }

  // ---- The batcher interleaved with recorders -------------------------------

  datatype Batch = Batch(buckets: seq<Bucket<Key>>, ids: seq<int>)

  /** Where the single batcher is: between flushes, before the send, or before the marking. */
  datatype Phase = Idle | Read(batch: Batch) | Accepted(batch: Batch)

  /** `accepted`: every batch for which the send function returned nil. */
  datatype State = State(rows: seq<Row>, nextId: int, phase: Phase, accepted: seq<Batch>)

  /** Each tracker call holds the tracker's lock, so each is one step.  `Mark(done)` marks the
      first `done` identifiers; a chunk update that fails leaves the rest. */
  datatype Step = RecordEvent(e: Event) | ReadBuckets(buckets: seq<Bucket<Key>>) | Send(ok: bool) | Mark(done: nat)

  ghost predicate Enabled(s: State, step: Step) {
    match step
    case RecordEvent(e) => |e.ts| >= 10
    case ReadBuckets(buckets) => s.phase.Idle? && Dated(s.rows) && IsAggregate(buckets, Unflushed(s.rows))
    case Send(_) => s.phase.Read?
    case Mark(done) => s.phase.Accepted? && done <= |s.phase.batch.ids|
  }

  function Next(s: State, step: Step): State {
    match step
    case RecordEvent(e) => s.(rows := s.rows + [Row(s.nextId, e, false)], nextId := s.nextId + 1)
    case ReadBuckets(buckets) =>
      if buckets == [] then s else s.(phase := Read(Batch(buckets, Ids(Unflushed(s.rows)))))
    case Send(ok) =>
      if s.phase.Idle? then s
      else if ok then s.(phase := Accepted(s.phase.batch), accepted := s.accepted + [s.phase.batch])
      else s.(phase := Idle)
    case Mark(done) =>
      if s.phase.Idle? || done > |s.phase.batch.ids| then s
      else s.(phase := Idle, rows := SetFlushed(s.rows, SetOf(s.phase.batch.ids[..done])))
  }

  const INIT := State([], 1, Idle, [])

  /** The batches of `batches` that contain row `id`. */
  function TimesSent(batches: seq<Batch>, id: int): nat {
    if batches == [] then 0
    else
      var n := |batches| - 1;
      TimesSent(batches[..n], id) + if id in batches[n].ids then 1 else 0
  }

  function BucketTotals<K(==)>(buckets: seq<Bucket<K>>, k: K): Totals {
    if buckets == [] then ZERO
    else
      var n := |buckets| - 1;
      BucketTotals(buckets[..n], k).Plus(if buckets[n].key == k then buckets[n].totals else ZERO)
  }

  /** Everything the send function has accepted for key `k`. */
  function AcceptedTotals(batches: seq<Batch>, k: Key): Totals {
    if batches == [] then ZERO
    else
      var n := |batches| - 1;
      AcceptedTotals(batches[..n], k).Plus(BucketTotals(batches[n].buckets, k))
  }

  function InBatch(ids: seq<int>): Row -> int { (r: Row) => if r.id in ids then 1 else 0 }

  function Sent(batches: seq<Batch>): Row -> int { (r: Row) => TimesSent(batches, r.id) as int }

  function One(): Row -> int { (r: Row) => 1 }

  function Open(): Row -> int { (r: Row) => if r.flushed then 0 else 1 }

  // ---- Algebra of weighted sums ---------------------------------------------

  lemma TimesDistributes(t: Totals, v: int, w: int)
    ensures t.Times(v).Plus(t.Times(w)) == t.Times(v + w)
    ensures t.Times(0) == ZERO && t.Times(1) == t
  {
    forall x: int ensures v * x + w * x == (v + w) * x {}
  }

  lemma PlusRegroups(a: Totals, b: Totals, c: Totals, d: Totals)
    ensures a.Plus(b).Plus(c.Plus(d)) == a.Plus(c).Plus(b.Plus(d))
  {
  }

  lemma {:induction false} WeightedAdds(rows: seq<Row>, k: Key, u: Row -> int, v: Row -> int, w: Row -> int)
    requires forall r :: r in rows ==> w(r) == u(r) + v(r)
    ensures Weighted(rows, k, w) == Weighted(rows, k, u).Plus(Weighted(rows, k, v))
  {
    hide Weighted, Share, Totals.Times;
    NothingTotals(k, u);
    NothingTotals(k, v);
    NothingTotals(k, w);
    if rows != [] {
      var n := |rows| - 1;
      var init, r := rows[..n], rows[n];
      WeightedAdds(init, k, u, v, w);
      assert rows == init + [r];
      LastRow(init, r, k, u);
      LastRow(init, r, k, v);
      LastRow(init, r, k, w);
      var x := Share(r, k);
      TimesDistributes(x, u(r), v(r));
      PlusRegroups(Weighted(init, k, u), Weighted(init, k, v), x.Times(u(r)), x.Times(v(r)));
    }
  }

  /** The sum only depends on the keys, values and weights of the rows. */
  lemma {:induction false} WeightedDepends(rows: seq<Row>, rows': seq<Row>, k: Key, w: Row -> int, w': Row -> int)
    requires |rows| == |rows'|
    requires forall i :: 0 <= i < |rows| ==> rows[i].event == rows'[i].event && w(rows[i]) == w'(rows'[i])
    ensures Weighted(rows, k, w) == Weighted(rows', k, w')
  {
    hide Weighted;
    NothingTotals(k, w);
    NothingTotals(k, w');
    if rows != [] {
      var n := |rows| - 1;
      WeightedDepends(rows[..n], rows'[..n], k, w, w');
      assert rows == rows[..n] + [rows[n]] && rows' == rows'[..n] + [rows'[n]];
      LastRow(rows[..n], rows[n], k, w);
      LastRow(rows'[..n], rows'[n], k, w');
    }
  }

  lemma {:induction false} WeightedByOne(rows: seq<Row>, k: Key)
    ensures Weighted(rows, k, One()) == TotalsOf(rows, k)
  {
    hide Weighted, TotalsOf, Share, Totals.Times;
    NothingTotals(k, One());
    if rows != [] {
      var n := |rows| - 1;
      WeightedByOne(rows[..n], k);
      assert rows == rows[..n] + [rows[n]];
      LastRow(rows[..n], rows[n], k, One());
      TimesDistributes(Share(rows[n], k), 0, 1);
    }
  }

  lemma {:induction false} WeightedByOpen(rows: seq<Row>, k: Key)
    ensures Weighted(rows, k, Open()) == TotalsOf(Unflushed(rows), k)
  {
    hide Weighted, TotalsOf, Unflushed, Share, Totals.Times;
    NothingTotals(k, Open());
    if rows != [] {
      var n := |rows| - 1;
      WeightedByOpen(rows[..n], k);
      assert rows == rows[..n] + [rows[n]];
      LastRow(rows[..n], rows[n], k, Open());
      LastRow(Unflushed(rows[..n]), rows[n], k, Open());
      TimesDistributes(Share(rows[n], k), 0, 1);
    }
  }

  lemma {:induction false} LastBucket<K>(buckets: seq<Bucket<K>>, b: Bucket<K>, k: K)
    ensures BucketTotals(buckets + [b], k) == BucketTotals(buckets, k).Plus(if b.key == k then b.totals else ZERO)
  {
    assert (buckets + [b])[..|buckets|] == buckets;
  }

  lemma {:induction false} AbsentKey<K>(buckets: seq<Bucket<K>>, k: K)
    requires forall b :: b in buckets ==> b.key != k
    ensures BucketTotals(buckets, k) == ZERO
  {
    if buckets != [] {
      var n := |buckets| - 1;
      AbsentKey(buckets[..n], k);
      assert buckets[n] in buckets;
    }
  }

  lemma {:induction false} PresentKey<K>(buckets: seq<Bucket<K>>, at: nat)
    requires at < |buckets|
    requires forall i, j :: 0 <= i < j < |buckets| ==> buckets[i].key != buckets[j].key
    ensures BucketTotals(buckets, buckets[at].key) == buckets[at].totals
  {
    hide BucketTotals;
    var n, k := |buckets| - 1, buckets[at].key;
    assert buckets == buckets[..n] + [buckets[n]];
    LastBucket(buckets[..n], buckets[n], k);
    if at < n {
      PresentKey(buckets[..n], at);
    } else {
      AbsentKey(buckets[..n], k);
    }
  }

  /** A batch carries exactly the totals of the rows it was made from. */
  lemma AggregateIsExact(buckets: seq<Bucket<Key>>, rows: seq<Row>, k: Key)
    requires IsAggregate(buckets, rows)
    ensures BucketTotals(buckets, k) == TotalsOf(rows, k)
  {
    CountsAreNatural(rows, k);
    hide TotalsOf, BucketTotals;
    if TotalsOf(rows, k).n > 0 {
      var at :| 0 <= at < |buckets| && buckets[at].key == k;
      PresentKey(buckets, at);
    } else {
      AbsentKey(buckets, k);
    }
  }

  // ---- Invariants of every run ----------------------------------------------

  /** The batch was made from rows of the table and still carries exactly their totals. */
  ghost predicate BatchOk(rows: seq<Row>, nextId: int, batch: Batch) {
    && (forall i :: 0 <= i < |batch.ids| ==> batch.ids[i] < nextId)
    && (forall k :: BucketTotals(batch.buckets, k) == Weighted(rows, k, InBatch(batch.ids)))
  }

  /** The identifiers of the batch in flight are those of distinct unflushed rows. */
  ghost predicate InFlight(rows: seq<Row>, ids: seq<int>) {
    && (forall i, j :: 0 <= i < j < |ids| ==> ids[i] != ids[j])
    && (forall i :: 0 <= i < |ids| ==> exists r :: r in rows && r.id == ids[i])
    && (forall r :: r in rows && r.id in ids ==> !r.flushed)
  }

  /** How often the ledger accounts for the row: once if it is flushed, once if its batch has
      been accepted and waits for marking. */
  function Accounted(s: State, r: Row): nat {
    (if r.flushed then 1 else 0) + if s.phase.Accepted? && r.id in s.phase.batch.ids then 1 else 0
  }

  ghost predicate Inv(s: State) {
    && Increasing(s.rows, s.nextId) && Dated(s.rows)
    && (forall b :: b in s.accepted ==> BatchOk(s.rows, s.nextId, b))
    && (!s.phase.Idle? ==> BatchOk(s.rows, s.nextId, s.phase.batch) && InFlight(s.rows, s.phase.batch.ids))
    && (forall r :: r in s.rows ==> TimesSent(s.accepted, r.id) >= Accounted(s, r))
  }

  lemma {:induction false} NeverSent(batches: seq<Batch>, id: int)
    requires forall b :: b in batches ==> id !in b.ids
    ensures TimesSent(batches, id) == 0
  {
    if batches != [] {
      NeverSent(batches[..|batches| - 1], id);
      assert batches[|batches| - 1] in batches;
    }
  }

  lemma {:induction false} OneMoreSent(batches: seq<Batch>, b: Batch, id: int)
    ensures TimesSent(batches + [b], id) == TimesSent(batches, id) + if id in b.ids then 1 else 0
  {
    assert (batches + [b])[..|batches|] == batches;
  }

  lemma BatchOkAfterRecord(rows: seq<Row>, nextId: int, batch: Batch, r: Row)
    requires BatchOk(rows, nextId, batch) && r.id == nextId
    ensures BatchOk(rows + [r], nextId + 1, batch)
  {
    hide Weighted, BucketTotals, Share, Totals.Times;
    forall k ensures BucketTotals(batch.buckets, k) == Weighted(rows + [r], k, InBatch(batch.ids)) {
      LastRow(rows, r, k, InBatch(batch.ids));
      TimesDistributes(Share(r, k), 0, 0);
    }
  }

  lemma BatchOkAfterMark(rows: seq<Row>, nextId: int, batch: Batch, ids: set<int>)
    requires BatchOk(rows, nextId, batch)
    ensures BatchOk(SetFlushed(rows, ids), nextId, batch)
  {
    hide Weighted, BucketTotals;
    forall k ensures BucketTotals(batch.buckets, k) == Weighted(SetFlushed(rows, ids), k, InBatch(batch.ids)) {
      WeightedDepends(rows, SetFlushed(rows, ids), k, InBatch(batch.ids), InBatch(batch.ids));
    }
  }

  lemma InFlightAfterRecord(rows: seq<Row>, ids: seq<int>, r: Row)
    requires InFlight(rows, ids) && r.id !in ids
    ensures InFlight(rows + [r], ids)
  {
    forall i | 0 <= i < |ids| ensures exists x :: x in rows + [r] && x.id == ids[i] {
      var id := ids[i];
      var x :| x in rows && x.id == id;
      assert x in rows + [r];
    }
  }

  lemma RecordKeepsInv(s: State, e: Event)
    requires Inv(s) && |e.ts| >= 10
    ensures Inv(Next(s, RecordEvent(e)))
  {
    hide BatchOk;
    var r := Row(s.nextId, e, false);
    var s' := Next(s, RecordEvent(e));
    forall b | b in s.accepted ensures BatchOk(s'.rows, s'.nextId, b) { BatchOkAfterRecord(s.rows, s.nextId, b, r); }
    if !s.phase.Idle? {
      BatchOkAfterRecord(s.rows, s.nextId, s.phase.batch, r);
      BatchIdsAreOld(s.rows, s.nextId, s.phase.batch);
      InFlightAfterRecord(s.rows, s.phase.batch.ids, r);
    }
  }

  lemma BatchIdsAreOld(rows: seq<Row>, nextId: int, batch: Batch)
    requires BatchOk(rows, nextId, batch)
    ensures forall id :: id in batch.ids ==> id < nextId
  {
  }

  lemma {:induction false} UnflushedIsIncreasing(rows: seq<Row>, nextId: int)
    requires Increasing(rows, nextId)
    ensures Increasing(Unflushed(rows), nextId)
  {
    if rows != [] {
      var n := |rows| - 1;
      UnflushedIsIncreasing(rows[..n], nextId);
      forall r | r in Unflushed(rows[..n]) ensures r.id < rows[n].id { UnflushedHas(rows[..n], r); }
    }
  }

  lemma UnflushedIdsAre(rows: seq<Row>, nextId: int, r: Row)
    requires Increasing(rows, nextId) && r in rows
    ensures r.id in Ids(Unflushed(rows)) <==> !r.flushed
  {
    UnflushedHas(rows, r);
    var open := Unflushed(rows);
    if r.id in Ids(open) {
      var i :| 0 <= i < |open| && Ids(open)[i] == r.id;
      UnflushedHas(rows, open[i]);
      var x, y :| 0 <= x < |rows| && 0 <= y < |rows| && rows[x] == r && rows[y] == open[i];
    }
    if !r.flushed {
      var i :| 0 <= i < |open| && open[i] == r;
      assert Ids(open)[i] == r.id;
    }
  }

  lemma FreshBatchIsInFlight(rows: seq<Row>, nextId: int)
    requires Increasing(rows, nextId)
    ensures InFlight(rows, Ids(Unflushed(rows)))
    ensures forall id :: id in Ids(Unflushed(rows)) ==> id < nextId
  {
    var open := Unflushed(rows);
    var ids := Ids(open);
    UnflushedIsIncreasing(rows, nextId);
    forall r | r in rows ensures r.id in ids <==> !r.flushed { UnflushedIdsAre(rows, nextId, r); }
    forall i | 0 <= i < |ids| ensures exists r :: r in rows && r.id == ids[i] {
      UnflushedHas(rows, open[i]);
      assert open[i] in rows;
    }
    forall id | id in ids ensures id < nextId {
      var i :| 0 <= i < |ids| && ids[i] == id;
      assert open[i] in open;
    }
  }

  lemma FreshBatchIsOk(rows: seq<Row>, nextId: int, buckets: seq<Bucket<Key>>)
    requires Increasing(rows, nextId) && IsAggregate(buckets, Unflushed(rows))
    ensures BatchOk(rows, nextId, Batch(buckets, Ids(Unflushed(rows))))
  {
    var open := Unflushed(rows);
    var ids := Ids(open);
    FreshBatchIsInFlight(rows, nextId);
    forall r | r in rows ensures Open()(r) == InBatch(ids)(r) { UnflushedIdsAre(rows, nextId, r); }
    forall i | 0 <= i < |rows| ensures Open()(rows[i]) == InBatch(ids)(rows[i]) { assert rows[i] in rows; }
    forall i | 0 <= i < |ids| ensures ids[i] < nextId { assert ids[i] in ids; }
    hide Weighted, BucketTotals, TotalsOf, Unflushed, Open, InBatch, IsAggregate, Ids, Increasing;
    forall k ensures BucketTotals(buckets, k) == Weighted(rows, k, InBatch(ids)) {
      AggregateIsExact(buckets, open, k);
      WeightedByOpen(rows, k);
      WeightedDepends(rows, rows, k, Open(), InBatch(ids));
    }
  }

  lemma ReadKeepsInv(s: State, buckets: seq<Bucket<Key>>)
    requires Inv(s) && Enabled(s, ReadBuckets(buckets))
    ensures Inv(Next(s, ReadBuckets(buckets)))
  {
    hide BatchOk, InFlight, Unflushed, IsAggregate;
    FreshBatchIsInFlight(s.rows, s.nextId);
    FreshBatchIsOk(s.rows, s.nextId, buckets);
  }

  lemma SendKeepsInv(s: State, ok: bool)
    requires Inv(s) && s.phase.Read?
    ensures Inv(Next(s, Send(ok)))
  {
    hide BatchOk, InFlight;
    if ok {
      forall r | r in s.rows
        ensures TimesSent(s.accepted + [s.phase.batch], r.id) >= Accounted(Next(s, Send(ok)), r)
      {
        OneMoreSent(s.accepted, s.phase.batch, r.id);
        hide TimesSent;
      }
    }
  }

  lemma MarkKeepsInv(s: State, done: nat)
    requires Inv(s) && Enabled(s, Mark(done))
    ensures Inv(Next(s, Mark(done)))
  {
    hide BatchOk, TimesSent;
    var ids := s.phase.batch.ids;
    var rows' := SetFlushed(s.rows, SetOf(ids[..done]));
    forall b | b in s.accepted
      ensures BatchOk(rows', s.nextId, b) { BatchOkAfterMark(s.rows, s.nextId, b, SetOf(ids[..done])); }
    forall r | r in rows' ensures TimesSent(s.accepted, r.id) >= if r.flushed then 1 else 0 {
      var i :| 0 <= i < |rows'| && rows'[i] == r;
      assert s.rows[i] in s.rows;
    }
  }

  lemma StepKeepsInv(s: State, step: Step)
    requires Inv(s) && Enabled(s, step)
    ensures Inv(Next(s, step))
  {
    hide Inv;
    match step {
      case RecordEvent(e) => RecordKeepsInv(s, e);
      case ReadBuckets(buckets) => ReadKeepsInv(s, buckets);
      case Send(ok) => SendKeepsInv(s, ok);
      case Mark(done) => MarkKeepsInv(s, done);
    }
  }

  // ---- When the ledger balances ---------------------------------------------

  /** For every key: what was accepted plus what is still unflushed is what was recorded. */
  ghost predicate Balanced(s: State) {
    forall k :: AcceptedTotals(s.accepted, k).Plus(TotalsOf(Unflushed(s.rows), k)) == TotalsOf(s.rows, k)
  }

  /** No row has been sent more often than the ledger accounts for. */
  ghost predicate Clean(s: State) {
    forall r :: r in s.rows ==> TimesSent(s.accepted, r.id) == Accounted(s, r)
  }

  /** Accepted totals are the sum over all rows, each as often as it was sent. */
  lemma {:induction false} AcceptedIsWeighted(rows: seq<Row>, nextId: int, batches: seq<Batch>, k: Key)
    requires forall b :: b in batches ==> BatchOk(rows, nextId, b)
    ensures AcceptedTotals(batches, k) == Weighted(rows, k, Sent(batches))
  {
    hide Weighted, BucketTotals;
    if batches == [] {
      WeightedByNothing(rows, k, Sent(batches));
    } else {
      var n := |batches| - 1;
      assert batches == batches[..n] + [batches[n]];
      AcceptedIsWeighted(rows, nextId, batches[..n], k);
      assert BatchOk(rows, nextId, batches[n]);
      WeightedAdds(rows, k, Sent(batches[..n]), InBatch(batches[n].ids), Sent(batches));
    }
  }

  lemma {:induction false} WeightedByNothing(rows: seq<Row>, k: Key, w: Row -> int)
    requires forall r :: r in rows ==> w(r) == 0
    ensures Weighted(rows, k, w) == ZERO
  {
    if rows != [] {
      var n := |rows| - 1;
      WeightedByNothing(rows[..n], k, w);
      TimesDistributes(Share(rows[n], k), 0, 0);
      assert rows[n] in rows;
      hide Share, Totals.Times;
    }
  }

  /** A row weighed more heavily shows in the count of its key. */
  lemma {:induction false} WeightedGrows(rows: seq<Row>, k: Key, u: Row -> int, v: Row -> int)
    requires forall r :: r in rows ==> u(r) <= v(r)
    ensures Weighted(rows, k, u).n <= Weighted(rows, k, v).n
    ensures (exists r :: r in rows && KeyOf(r.event) == k && u(r) < v(r)) ==>
        Weighted(rows, k, u).n < Weighted(rows, k, v).n
  {
    if rows != [] {
      var n := |rows| - 1;
      WeightedGrows(rows[..n], k, u, v);
      CountOfShare(rows[n], k, u(rows[n]));
      CountOfShare(rows[n], k, v(rows[n]));
      assert rows == rows[..n] + [rows[n]];
      hide Share, Totals.Times, KeyOf;
    }
  }

  lemma CountOfShare(r: Row, k: Key, w: int)
    ensures Share(r, k).Times(w).n == if KeyOf(r.event) == k then w else 0
  {
  }

  lemma SentOrOpen(s: State, r: Row)
    requires Inv(s) && !s.phase.Accepted? && r in s.rows
    ensures var once := Sent(s.accepted)(r) + Open()(r);
            1 <= once && (once == 1 <==> TimesSent(s.accepted, r.id) == Accounted(s, r))
  {
    hide TimesSent, BatchOk, InFlight;
  }

  /** Unless an accepted batch waits for its marking, the ledger balances exactly when no row
      was sent twice. */
  lemma BalancedIffClean(s: State)
    requires Inv(s) && !s.phase.Accepted?
    ensures Balanced(s) <==> Clean(s)
  {
    hide Weighted, TotalsOf, Unflushed, BatchOk, AcceptedTotals;
    var once := (r: Row) => Sent(s.accepted)(r) + Open()(r);
    forall k
      ensures AcceptedTotals(s.accepted, k).Plus(TotalsOf(Unflushed(s.rows), k)) == Weighted(s.rows, k, once)
      ensures TotalsOf(s.rows, k) == Weighted(s.rows, k, One())
    {
      AcceptedIsWeighted(s.rows, s.nextId, s.accepted, k);
      WeightedByOpen(s.rows, k);
      WeightedByOne(s.rows, k);
      WeightedAdds(s.rows, k, Sent(s.accepted), Open(), once);
    }
    forall r | r in s.rows ensures 1 <= once(r) && (once(r) == 1 <==> TimesSent(s.accepted, r.id) == Accounted(s, r)) {
      SentOrOpen(s, r);
    }
    hide Inv, Accounted, TimesSent;
    if Clean(s) {
      forall i | 0 <= i < |s.rows| ensures once(s.rows[i]) == One()(s.rows[i]) { assert s.rows[i] in s.rows; }
      forall k ensures Weighted(s.rows, k, once) == Weighted(s.rows, k, One()) {
        WeightedDepends(s.rows, s.rows, k, once, One());
      }
    }
    if Balanced(s) {
      forall r | r in s.rows ensures TimesSent(s.accepted, r.id) == Accounted(s, r) {
        WeightedGrows(s.rows, KeyOf(r.event), One(), once);
      }
    }
  }

  // ---- Whole runs -----------------------------------------------------------

  ghost predicate EnabledRun(s: State, steps: seq<Step>)
    decreases |steps|
  {
    steps == [] || (Enabled(s, steps[0]) && EnabledRun(Next(s, steps[0]), steps[1..]))
  }

  function Run(s: State, steps: seq<Step>): State
    decreases |steps|
  {
    if steps == [] then s else Run(Next(s, steps[0]), steps[1..])
  }

  /** The marking step marks the whole batch. */
  predicate Complete(s: State, step: Step) {
    step.Mark? && s.phase.Accepted? ==> step.done == |s.phase.batch.ids|
  }

  predicate AllMarksComplete(s: State, steps: seq<Step>)
    decreases |steps|
  {
    steps == [] || (Complete(s, steps[0]) && AllMarksComplete(Next(s, steps[0]), steps[1..]))
  }

  /** What a step does to the balance of one row that was there before it. */
  lemma ExcessOfRow(s: State, step: Step, i: nat)
    requires Inv(s) && Enabled(s, step) && i < |s.rows|
    ensures var s' := Next(s, step);
            var r, r' := s.rows[i], s'.rows[i];
            && r'.id == r.id
            && TimesSent(s'.accepted, r.id) - Accounted(s', r') ==
                 TimesSent(s.accepted, r.id) - Accounted(s, r)
                 + (if step.Mark? && r.id in s.phase.batch.ids && r.id !in s.phase.batch.ids[..step.done] then 1 else 0)
  {
    hide BatchOk, IsAggregate, TimesSent;
    var r := s.rows[i];
    assert r in s.rows;
    match step {
      case RecordEvent(e) =>
      case ReadBuckets(buckets) =>
      case Send(ok) => OneMoreSent(s.accepted, s.phase.batch, r.id);
      case Mark(done) => AccountedAfterMark(s, done, i);
    }
  }

  lemma AccountedAfterMark(s: State, done: nat, i: nat)
    requires Inv(s) && Enabled(s, Mark(done)) && i < |s.rows|
    ensures var s', r := Next(s, Mark(done)), s.rows[i];
            && s'.rows[i] == r.(flushed := r.flushed || r.id in s.phase.batch.ids[..done])
            && Accounted(s', s'.rows[i]) ==
                 Accounted(s, r) - if r.id in s.phase.batch.ids && r.id !in s.phase.batch.ids[..done] then 1 else 0
  {
    hide BatchOk, TimesSent;
    var ids, r := s.phase.batch.ids, s.rows[i];
    assert r in s.rows;
    assert r.id in SetOf(ids[..done]) <==> r.id in ids[..done];
    assert ids == ids[..done] + ids[done..];
  }

  lemma NewRowIsClean(s: State, step: Step)
    requires Inv(s) && step.RecordEvent?
    ensures TimesSent(s.accepted, s.nextId) == 0
    ensures s.phase.Accepted? ==> s.nextId !in s.phase.batch.ids
  {
    forall b | b in s.accepted ensures s.nextId !in b.ids { BatchIdsAreOld(s.rows, s.nextId, b); }
    NeverSent(s.accepted, s.nextId);
    if s.phase.Accepted? {
      BatchIdsAreOld(s.rows, s.nextId, s.phase.batch);
    }
  }

  /** A clean ledger stays clean exactly if the step is no incomplete marking; a ledger that
      is not clean never becomes so again. */
  lemma StepCleanIff(s: State, step: Step)
    requires Inv(s) && Enabled(s, step)
    ensures Clean(Next(s, step)) <==> Clean(s) && Complete(s, step)
  {
    hide BatchOk, IsAggregate, TimesSent, Accounted;
    var s' := Next(s, step);
    forall i | 0 <= i < |s.rows|
      ensures s'.rows[i].id == s.rows[i].id
      ensures TimesSent(s'.accepted, s.rows[i].id) - Accounted(s', s'.rows[i]) ==
                TimesSent(s.accepted, s.rows[i].id) - Accounted(s, s.rows[i])
                + if step.Mark? && s.rows[i].id in s.phase.batch.ids
                  && s.rows[i].id !in s.phase.batch.ids[..step.done] then 1 else 0
      ensures TimesSent(s.accepted, s.rows[i].id) >= Accounted(s, s.rows[i])
    {
      ExcessOfRow(s, step, i);
      assert s.rows[i] in s.rows;
    }
    if Clean(s) && Complete(s, step) {
      CompleteStepKeepsClean(s, step);
    }
    if Clean(s') {
      forall r | r in s.rows ensures TimesSent(s.accepted, r.id) == Accounted(s, r) {
        var i :| 0 <= i < |s.rows| && s.rows[i] == r;
        assert s'.rows[i] in s'.rows;
      }
    }
    if !Complete(s, step) {
      IncompleteMarkIsSeen(s, step);
    }
  }

  lemma RowInFlight(rows: seq<Row>, ids: seq<int>, i: nat) returns (r: Row)
    requires InFlight(rows, ids) && i < |ids|
    ensures r in rows && r.id == ids[i]
  {
    var id := ids[i];
    assert exists x :: x in rows && x.id == id;
    r :| r in rows && r.id == id;
  }

  /** The first identifier left out belongs to a row that is sent again later. */
  lemma IncompleteMarkIsSeen(s: State, step: Step)
    requires Inv(s) && Enabled(s, step) && !Complete(s, step)
    ensures !Clean(Next(s, step))
  {
    hide BatchOk, TimesSent;
    var s', ids := Next(s, step), s.phase.batch.ids;
    var r := RowInFlight(s.rows, ids, step.done);
    var i :| 0 <= i < |s.rows| && s.rows[i] == r;
    ExcessOfRow(s, step, i);
    assert s'.rows[i] in s'.rows;
  }

  lemma CompleteStepKeepsClean(s: State, step: Step)
    requires Inv(s) && Enabled(s, step) && Clean(s) && Complete(s, step)
    ensures Clean(Next(s, step))
  {
    hide BatchOk, IsAggregate, TimesSent;
    var s' := Next(s, step);
    forall r | r in s'.rows ensures TimesSent(s'.accepted, r.id) == Accounted(s', r) {
      var i :| 0 <= i < |s'.rows| && s'.rows[i] == r;
      if i < |s.rows| {
        ExcessOfRow(s, step, i);
        assert s.rows[i] in s.rows;
        if step.Mark? {
          assert s.phase.batch.ids[..step.done] == s.phase.batch.ids;
        }
      } else {
        NewRowIsClean(s, step);
      }
    }
  }

  lemma {:induction false} RunCleanIff(s: State, steps: seq<Step>)
    requires Inv(s) && EnabledRun(s, steps)
    ensures Inv(Run(s, steps))
    ensures Clean(Run(s, steps)) <==> Clean(s) && AllMarksComplete(s, steps)
    decreases |steps|
  {
    hide Inv, Clean, Enabled, Next, Complete;
    if steps != [] {
      StepKeepsInv(s, steps[0]);
      StepCleanIff(s, steps[0]);
      RunCleanIff(Next(s, steps[0]), steps[1..]);
    }
  }

  /** Over every interleaving of recorders with the batcher, from an empty table: between
      flushes the accepted totals plus the unflushed totals are the recorded totals, for every
      key, exactly when no marking of the run was cut short by a database error. */
  lemma LedgerBalancesIff(steps: seq<Step>)
    requires EnabledRun(INIT, steps) && !Run(INIT, steps).phase.Accepted?
    ensures Balanced(Run(INIT, steps)) <==> AllMarksComplete(INIT, steps)
  {
    RunCleanIff(INIT, steps);
    BalancedIffClean(Run(INIT, steps));
  }

  /** Such a run: the only row is sent, the database refuses its marking, and the ledger
      counts it as accepted and as open. */
  lemma RefusedMarkingUnbalances(e: Event)
    requires |e.ts| >= 10
    ensures var steps := [RecordEvent(e), ReadBuckets([Bucket(KeyOf(e), ValueOf(e))]), Send(true), Mark(0)];
            && EnabledRun(INIT, steps) && Run(INIT, steps).phase.Idle? && !Balanced(Run(INIT, steps))
            && Run(INIT, steps).rows == [Row(1, e, false)] && |Run(INIT, steps).accepted| == 1
  {
    var b := Bucket(KeyOf(e), ValueOf(e));
    var row := Row(1, e, false);
    OneRow(row, KeyOf(e));
    OneRowAggregate(row);
    var s1 := Next(INIT, RecordEvent(e));
    var s2 := Next(s1, ReadBuckets([b]));
    var s3 := Next(s2, Send(true));
    var s4 := Next(s3, Mark(0));
    assert s1.rows == [row];
    assert s2.phase == Read(Batch([b], [1])) by { assert Ids([row]) == [1]; }
    assert s4.rows == [row];
    var steps3: seq<Step> := [Mark(0)];
    var steps2: seq<Step> := [Send(true)] + steps3;
    var steps1: seq<Step> := [ReadBuckets([b])] + steps2;
    var steps := [RecordEvent(e)] + steps1;
    assert steps == [RecordEvent(e), ReadBuckets([b]), Send(true), Mark(0)];
    assert steps3[1..] == [] && steps2[1..] == steps3 && steps1[1..] == steps2 && steps[1..] == steps1;
    hide IsAggregate, Balanced, SetFlushed, Unflushed, Ids;
    assert Run(s4, []) == s4 && EnabledRun(s4, []);
    assert Run(s3, steps3) == s4 && EnabledRun(s3, steps3) && !AllMarksComplete(s3, steps3);
    assert Run(s2, steps2) == s4 && EnabledRun(s2, steps2) && !AllMarksComplete(s2, steps2);
    assert Run(s1, steps1) == s4 && EnabledRun(s1, steps1) && !AllMarksComplete(s1, steps1);
    LedgerBalancesIff(steps);
  }

  lemma OneRow(row: Row, k: Key)
    ensures TotalsOf([row], k) == Share(row, k)
    ensures !row.flushed ==> Unflushed([row]) == [row]
  {
    hide TotalsOf, Share, Weighted, Unflushed;
    NothingTotals(k, One());
    LastRow([], row, k, One());
    assert [] + [row] == [row];
  }

  lemma OneBucketAggregate(b: Bucket<Key>, rows: seq<Row>)
    requires b.totals.n > 0 && TotalsOf(rows, b.key) == b.totals
    requires forall k :: k != b.key ==> TotalsOf(rows, k).n == 0
    ensures IsAggregate([b], rows)
  {
    hide TotalsOf;
    assert b in [b];
  }

  lemma OneRowAggregate(row: Row)
    ensures IsAggregate([Bucket(KeyOf(row.event), ValueOf(row.event))], [row])
  {
    hide TotalsOf, KeyOf, Share, IsAggregate;
    var b := Bucket(KeyOf(row.event), ValueOf(row.event));
    forall k ensures TotalsOf([row], k) == if k == b.key then b.totals else ZERO {
      OneRow(row, k);
      ShareIsNatural(row, k);
    }
    OneBucketAggregate(b, [row]);
  }

  /** In every run, whatever fails: a row is marked only after a batch containing it was accepted. */
  lemma NothingMarkedUnsent(steps: seq<Step>, r: Row)
    requires EnabledRun(INIT, steps) && r in Run(INIT, steps).rows && r.flushed
    ensures exists b :: b in Run(INIT, steps).accepted && r.id in b.ids
  {
    RunCleanIff(INIT, steps);
    var s := Run(INIT, steps);
    if forall b :: b in s.accepted ==> r.id !in b.ids {
      NeverSent(s.accepted, r.id);
    }
  }

  /** Five hundred identifiers at a time, up to the first chunk that the database refuses. */
  lemma {:induction false} MarkedStops(total: nat, start: nat, chunkOk: nat -> bool)
    requires start <= total && (start < total ==> start % 500 == 0)
    ensures var done := MarkedCount(total, start, chunkOk);
            && (forall c: nat :: start <= c * 500 < done ==> chunkOk(c))
            && (done < total ==> done % 500 == 0 && !chunkOk(done / 500))
    decreases total - start
  {
    if start < total && chunkOk(start / 500) {
      MarkedStops(total, if start + 500 <= total then start + 500 else total, chunkOk);
    }
  }

  /** The chunked update marks everything exactly when the database accepts every chunk. */
  lemma {:induction false} MarkedAllIff(total: nat, start: nat, chunkOk: nat -> bool)
    requires start <= total && (start < total ==> start % MARK_FLUSHED_CHUNK == 0)
    ensures MarkedCount(total, start, chunkOk) == total <==>
              forall c: nat :: start <= c * MARK_FLUSHED_CHUNK < total ==> chunkOk(c)
    decreases total - start
  {
    var c0 := start / MARK_FLUSHED_CHUNK;
    if start < total && chunkOk(c0) {
      var next := if start + MARK_FLUSHED_CHUNK <= total then start + MARK_FLUSHED_CHUNK else total;
      MarkedAllIff(total, next, chunkOk);
    }
  }
}
