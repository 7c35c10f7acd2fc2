/** Load metrics end to end: processes counting requests, flushing deltas that may fail, and a rollup,
    in any interleaving. What the table adds up to, and the percentile read off it. */
module Pipeline {
  import H = Histogram
  import opened Metrics
  import opened MetricsTable

  type History = map<Label, seq<Observation>>

  /** One process: every request it counted, and the prefix its last committed flush covered. Its
      counters are `SnapshotOf(history)` and its previous snapshot `SnapshotOf(flushed)`. */
  datatype Process = Process(history: History, flushed: History)

  /** An observation and the process that flushed it. */
  type Entry = (string, Observation)

  /** `log` is not stored anywhere: it lists, per label, what the committed flushes covered. */
  datatype State = State(processes: map<string, Process>, rows: seq<Row>, log: map<Label, seq<Entry>>)

  datatype Act =
    | Observe(instance: string, tag: Label, o: Observation)
    | Flush(instance: string, minute: int, after: seq<Row>)
    | FlushFails(instance: string)
    | RollUp(cutoff: int, after: seq<Row>)

  function ProcessOf(s: State, instance: string): Process {
    if instance in s.processes then s.processes[instance] else Process(map[], map[])
  }

  ghost predicate Enabled(s: State, a: Act) {
    match a
    case Observe(_, _, _) => true
    case Flush(instance, minute, after) =>
      var p := ProcessOf(s, instance);
      Flushed(s.rows, after, instance, minute, DeltasOf(SnapshotOf(p.flushed), SnapshotOf(p.history)))
    case FlushFails(_) => true
    case RollUp(cutoff, after) => RolledUp(s.rows, after, cutoff)
  }

  function Since(p: Process, tag: Label): seq<Observation> {
    if Continues(SeenBy(p.flushed, tag), SeenBy(p.history, tag)) then SeenBy(p.history, tag)[|SeenBy(p.flushed, tag)|..]
    else []
  }

  predicate Continues(earlier: seq<Observation>, later: seq<Observation>) { earlier <= later }

  function Entries(instance: string, seen: seq<Observation>): seq<Entry> {
    seq(|seen|, i requires 0 <= i < |seen| => (instance, seen[i]))
  }

  function LogOf(s: State, tag: Label): seq<Entry> {
    if tag in s.log then s.log[tag] else []
  }

  function Apply(s: State, a: Act): State {
    match a
    case Observe(instance, tag, o) =>
      var p := ProcessOf(s, instance);
      s.(processes := s.processes[instance := p.(history := p.history[tag := SeenBy(p.history, tag) + [o]])])
    case Flush(instance, _, after) =>
      var p := ProcessOf(s, instance);
      State(s.processes[instance := p.(flushed := p.history)], after,
            map tag | tag in s.log.Keys + p.history.Keys :: LogOf(s, tag) + Entries(instance, Since(p, tag)))
    case FlushFails(_) => s
    case RollUp(_, after) => s.(rows := after)
  }

  function Init(): State { State(map[], [], map[]) }

  ghost predicate IsRun(s: State, acts: seq<Act>)
    decreases |acts|
  {
    acts == [] || (Enabled(s, acts[0]) && IsRun(Apply(s, acts[0]), acts[1..]))
  }

  function After(s: State, acts: seq<Act>): State
    decreases |acts|
  {
    if acts == [] then s else After(Apply(s, acts[0]), acts[1..])
  }

  // ── What the log lists ────────────────────────────────────────────────────────────────────────

  function Observations(entries: seq<Entry>): seq<Observation> {
    seq(|entries|, i requires 0 <= i < |entries| => entries[i].1)
  }

  function FlushedBy(entries: seq<Entry>, instance: string): seq<Observation> {
    if entries == [] then []
    else
      var init, last := entries[..|entries| - 1], entries[|entries| - 1];
      if last.0 == instance then FlushedBy(init, instance) + [last.1] else FlushedBy(init, instance)
  }

  lemma {:induction false} FlushedByMore(entries: seq<Entry>, seen: seq<Observation>, instance: string, other: string)
    ensures FlushedBy(entries + Entries(instance, seen), other)
         == if other == instance then FlushedBy(entries, other) + seen else FlushedBy(entries, other)
    decreases |seen|
  {
    var all := entries + Entries(instance, seen);
    if seen == [] {
      assert all == entries;
    } else {
      var init := seen[..|seen| - 1];
      FlushedByMore(entries, init, instance, other);
      assert all[..|all| - 1] == entries + Entries(instance, init);
      assert seen == init + [seen[|seen| - 1]];
    }
  }

  lemma ObservationsMore(entries: seq<Entry>, instance: string, seen: seq<Observation>)
    ensures Observations(entries + Entries(instance, seen)) == Observations(entries) + seen
  {
  }

  // ── Counters add up ───────────────────────────────────────────────────────────────────────────

  ghost function Figure(seen: seq<Observation>, c: Component): real { Value(MeasureOf(StatsOf(seen)), c) }

  lemma RequestFigure(seen: seq<Observation>)
    ensures Figure(seen, Requests) == |seen| as real
  {
    StatusesSumToRequests(seen);
  }

  lemma ErrorFigure(seen: seq<Observation>)
    ensures Figure(seen, Errors) == StatusCount(seen, ERRORS) as real
  {
    StatusSeen(seen, ERRORS);
  }

  lemma DurationFigure(seen: seq<Observation>)
    ensures Figure(seen, Duration) == SumOfDurations(seen)
  {
  }

  lemma BucketFigure(seen: seq<Observation>, k: nat)
    ensures Figure(seen, Bucket(k)) == if k < WIDTH then Histo(Durations(seen))[k] as real else 0.0
  {
  }

  lemma HistoAdds(a: seq<Observation>, b: seq<Observation>, k: nat)
    requires k < WIDTH
    ensures Histo(Durations(a + b))[k] == Histo(Durations(a))[k] + Histo(Durations(b))[k]
  {
    assert Durations(a + b) == Durations(a) + Durations(b);
    HistoConcat(Durations(a), Durations(b));
  }

  lemma FiguresAdd(a: seq<Observation>, b: seq<Observation>, c: Component)
    ensures Figure(a + b, c) == Figure(a, c) + Figure(b, c)
  {
    match c
    case Requests =>
      RequestFigure(a);
      RequestFigure(b);
      RequestFigure(a + b);
    case Errors =>
      ErrorFigure(a);
      ErrorFigure(b);
      ErrorFigure(a + b);
      StatusCountConcat(a, b, ERRORS);
    case Duration =>
      DurationFigure(a);
      DurationFigure(b);
      DurationFigure(a + b);
      SumOfDurationsConcat(a, b);
    case Bucket(k) =>
      BucketFigure(a, k);
      BucketFigure(b, k);
      BucketFigure(a + b, k);
      if k < WIDTH {
        HistoAdds(a, b, k);
      }
  }

  lemma NoFigures(c: Component)
    ensures Figure([], c) == 0.0
  {
    match c
    case Requests => RequestFigure([]);
    case Errors => ErrorFigure([]);
    case Duration => DurationFigure([]);
    case Bucket(k) =>
      BucketFigure([], k);
      NothingSeen();
  }

  // ── The invariants ────────────────────────────────────────────────────────────────────────────

  /** The log holds, for each process, exactly what its last committed flush covered. */
  ghost predicate LogInv(s: State) {
    && (forall i: string :: Extends(ProcessOf(s, i).flushed, ProcessOf(s, i).history))
    && (forall i: string, tag: Label :: FlushedBy(LogOf(s, tag), i) == SeenBy(ProcessOf(s, i).flushed, tag))
  }

  /** Each label's rows add up to the observations in the log. */
  ghost predicate TableInv(s: State) {
    && Unique(s.rows)
    && Shapely(s.rows)
    && (forall tag: Label, c: Component :: Total(s.rows, OfLabel(tag), c) == Figure(Observations(LogOf(s, tag)), c))
  }

  lemma SinceIsDelta(s: State, i: string, tag: Label)
    requires LogInv(s)
    ensures var p := ProcessOf(s, i);
            && Since(p, tag) == NewSince(p.flushed, p.history, tag)
            && SeenBy(p.history, tag) == SeenBy(p.flushed, tag) + Since(p, tag)
  {
    var p := ProcessOf(s, i);
    assert SeenBy(p.flushed, tag) <= SeenBy(p.history, tag);
  }

  lemma LogOfFlushed(s: State, a: Act, tag: Label)
    requires a.Flush?
    ensures LogOf(Apply(s, a), tag) == LogOf(s, tag) + Entries(a.instance, Since(ProcessOf(s, a.instance), tag))
  {
  }

  lemma FlushKeepsLog(s: State, a: Act, i: string, tag: Label)
    requires LogInv(s) && a.Flush?
    ensures FlushedBy(LogOf(Apply(s, a), tag), i) == SeenBy(ProcessOf(Apply(s, a), i).flushed, tag)
  {
    assert FlushedBy(LogOf(s, tag), i) == SeenBy(ProcessOf(s, i).flushed, tag);
    SinceIsDelta(s, a.instance, tag);
    LogOfFlushed(s, a, tag);
    FlushedByMore(LogOf(s, tag), Since(ProcessOf(s, a.instance), tag), a.instance, i);
  }

  lemma OthersKeepLog(s: State, a: Act, i: string, tag: Label)
    requires LogInv(s) && !a.Flush?
    ensures FlushedBy(LogOf(Apply(s, a), tag), i) == SeenBy(ProcessOf(Apply(s, a), i).flushed, tag)
  {
    assert FlushedBy(LogOf(s, tag), i) == SeenBy(ProcessOf(s, i).flushed, tag);
    assert LogOf(Apply(s, a), tag) == LogOf(s, tag);
    assert ProcessOf(Apply(s, a), i).flushed == ProcessOf(s, i).flushed;
  }

  lemma ApplyKeepsExtends(s: State, a: Act, i: string)
    requires LogInv(s)
    ensures Extends(ProcessOf(Apply(s, a), i).flushed, ProcessOf(Apply(s, a), i).history)
  {
    assert Extends(ProcessOf(s, i).flushed, ProcessOf(s, i).history);
  }

  lemma ApplyKeepsLog(s: State, a: Act)
    requires LogInv(s)
    ensures LogInv(Apply(s, a))
  {
    forall i: string ensures Extends(ProcessOf(Apply(s, a), i).flushed, ProcessOf(Apply(s, a), i).history) {
      ApplyKeepsExtends(s, a, i);
    }
    forall i: string, tag: Label
      ensures FlushedBy(LogOf(Apply(s, a), tag), i) == SeenBy(ProcessOf(Apply(s, a), i).flushed, tag)
    {
      if a.Flush? {
        FlushKeepsLog(s, a, i, tag);
      } else {
        OthersKeepLog(s, a, i, tag);
      }
    }
  }

  lemma GainedIsFigure(s: State, instance: string, minute: int, scope: Scope, c: Component)
    requires LogInv(s) && Covers(scope, MinuteSlot(instance, minute, scope.tag))
    ensures var p := ProcessOf(s, instance);
            var deltas := DeltasOf(SnapshotOf(p.flushed), SnapshotOf(p.history));
            Gained(scope, instance, minute, deltas, c) == Figure(Since(p, scope.tag), c)
  {
    var p := ProcessOf(s, instance);
    DeltasAreNewObservations(p.flushed, p.history);
    SinceIsDelta(s, instance, scope.tag);
    NoFigures(c);
  }

  lemma ApplyKeepsTable(s: State, a: Act)
    requires LogInv(s) && TableInv(s) && Enabled(s, a)
    ensures TableInv(Apply(s, a))
  {
    var after := Apply(s, a);
    forall tag: Label, c: Component
      ensures Total(after.rows, OfLabel(tag), c) == Figure(Observations(LogOf(after, tag)), c)
    {
      assert Total(s.rows, OfLabel(tag), c) == Figure(Observations(LogOf(s, tag)), c);
      if a.Flush? {
        var since := Since(ProcessOf(s, a.instance), tag);
        GainedIsFigure(s, a.instance, a.minute, OfLabel(tag), c);
        LogOfFlushed(s, a, tag);
        ObservationsMore(LogOf(s, tag), a.instance, since);
        FiguresAdd(Observations(LogOf(s, tag)), since, c);
      }
    }
  }

  lemma InitHolds()
    ensures LogInv(Init()) && TableInv(Init())
  {
    forall c: Component ensures Figure([], c) == 0.0 {
      NoFigures(c);
    }
    assert forall tag :: Observations(LogOf(Init(), tag)) == [];
  }

  lemma {:induction false} RunKeepsInv(s: State, acts: seq<Act>)
    requires LogInv(s) && TableInv(s) && IsRun(s, acts)
    ensures LogInv(After(s, acts)) && TableInv(After(s, acts))
    decreases |acts|
  {
    if acts != [] {
      ApplyKeepsLog(s, acts[0]);
      ApplyKeepsTable(s, acts[0]);
      RunKeepsInv(Apply(s, acts[0]), acts[1..]);
    }
  }

  // ── What every run keeps ──────────────────────────────────────────────────────────────────────

  /** Through any flushes, failed flushes and rollups: each process has flushed a prefix of what it
      counted, and every label's rows add up, figure by figure, to those prefixes interleaved. */
  lemma TableHoldsWhatWasFlushed(acts: seq<Act>, tag: Label, c: Component)
    requires IsRun(Init(), acts)
    ensures var s := After(Init(), acts);
            && (forall i: string ::
                  && FlushedBy(LogOf(s, tag), i) == SeenBy(ProcessOf(s, i).flushed, tag)
                  && FlushedBy(LogOf(s, tag), i) <= SeenBy(ProcessOf(s, i).history, tag))
            && Total(s.rows, OfLabel(tag), c) == Figure(Observations(LogOf(s, tag)), c)
  {
    InitHolds();
    RunKeepsInv(Init(), acts);
    var s := After(Init(), acts);
    forall i: string
      ensures FlushedBy(LogOf(s, tag), i) == SeenBy(ProcessOf(s, i).flushed, tag)
      ensures FlushedBy(LogOf(s, tag), i) <= SeenBy(ProcessOf(s, i).history, tag)
    {
      assert Extends(ProcessOf(s, i).flushed, ProcessOf(s, i).history);
    }
  }

  /** While nothing is rolled up, one process's own rows are its last flushed snapshot. */
  ghost predicate OwnRowsInv(s: State, i: string) {
    forall tag: Label, c: Component ::
      Total(s.rows, OfInstance(tag, i), c) == Figure(SeenBy(ProcessOf(s, i).flushed, tag), c)
  }

  lemma OwnFlushAdds(s: State, i: string, minute: int, after: seq<Row>, tag: Label, c: Component)
    requires LogInv(s) && Enabled(s, Flush(i, minute, after))
    requires Total(s.rows, OfInstance(tag, i), c) == Figure(SeenBy(ProcessOf(s, i).flushed, tag), c)
    ensures Total(after, OfInstance(tag, i), c) == Figure(SeenBy(ProcessOf(s, i).history, tag), c)
  {
    GainedIsFigure(s, i, minute, OfInstance(tag, i), c);
    SinceIsDelta(s, i, tag);
    FiguresAdd(SeenBy(ProcessOf(s, i).flushed, tag), Since(ProcessOf(s, i), tag), c);
  }

  lemma OtherFlushAddsNothing(
    s: State, other: string, minute: int, after: seq<Row>, i: string, tag: Label, c: Component)
    requires Enabled(s, Flush(other, minute, after)) && other != i
    ensures Total(after, OfInstance(tag, i), c) == Total(s.rows, OfInstance(tag, i), c)
  {
  }

  lemma ApplyKeepsOwnRows(s: State, a: Act, i: string)
    requires LogInv(s) && OwnRowsInv(s, i) && Enabled(s, a) && !a.RollUp?
    ensures OwnRowsInv(Apply(s, a), i)
  {
    var after := Apply(s, a);
    forall tag: Label, c: Component
      ensures Total(after.rows, OfInstance(tag, i), c) == Figure(SeenBy(ProcessOf(after, i).flushed, tag), c)
    {
      assert Total(s.rows, OfInstance(tag, i), c) == Figure(SeenBy(ProcessOf(s, i).flushed, tag), c);
      match a
      case Flush(instance, minute, rows) =>
        if instance == i {
          OwnFlushAdds(s, i, minute, rows, tag, c);
        } else {
          OtherFlushAddsNothing(s, instance, minute, rows, i, tag, c);
        }
      case Observe(_, _, _) => assert ProcessOf(after, i).flushed == ProcessOf(s, i).flushed;
      case FlushFails(_) =>
    }
  }

  lemma {:induction false} RunKeepsOwnRows(s: State, acts: seq<Act>, i: string)
    requires LogInv(s) && OwnRowsInv(s, i) && IsRun(s, acts) && forall a :: a in acts ==> !a.RollUp?
    ensures LogInv(After(s, acts)) && OwnRowsInv(After(s, acts), i)
    decreases |acts|
  {
    if acts != [] {
      ApplyKeepsLog(s, acts[0]);
      ApplyKeepsOwnRows(s, acts[0], i);
      RunKeepsOwnRows(Apply(s, acts[0]), acts[1..], i);
    }
  }

  /** Telescoping: the rows of a process plus the delta it would flush next are its live counters. */
  lemma RowsPlusDeltaAreCounters(acts: seq<Act>, i: string, minute: int, tag: Label, c: Component)
    requires IsRun(Init(), acts) && forall a :: a in acts ==> !a.RollUp?
    ensures var s := After(Init(), acts);
            var p := ProcessOf(s, i);
            var next := DeltasOf(SnapshotOf(p.flushed), SnapshotOf(p.history));
            && Total(s.rows, OfInstance(tag, i), c) == Value(MeasureOf(GetStats(SnapshotOf(p.flushed), tag)), c)
            && Total(s.rows, OfInstance(tag, i), c) + Gained(OfInstance(tag, i), i, minute, next, c)
                 == Value(MeasureOf(GetStats(SnapshotOf(p.history), tag)), c)
  {
    InitHolds();
    forall c: Component ensures Figure([], c) == 0.0 {
      NoFigures(c);
    }
    RunKeepsOwnRows(Init(), acts, i);
    var s := After(Init(), acts);
    var p := ProcessOf(s, i);
    GainedIsFigure(s, i, minute, OfInstance(tag, i), c);
    SinceIsDelta(s, i, tag);
    FiguresAdd(SeenBy(p.flushed, tag), Since(p, tag), c);
    SnapshotGet(p.flushed, tag);
    SnapshotGet(p.history, tag);
  }

  // ── The percentile of the table ───────────────────────────────────────────────────────────────

  /** The rows `aggregate` groups under one method and route. */
  function RowsOf(rows: seq<Row>, tag: Label): (r: seq<Row>)
    ensures forall row :: row in r <==> row in rows && row.slot.tag == tag
  {
    if rows == [] then []
    else if rows[0].slot.tag == tag then [rows[0]] + RowsOf(rows[1..], tag)
    else RowsOf(rows[1..], tag)
  }

  lemma {:induction false} RowsOfTotal(rows: seq<Row>, tag: Label, c: Component)
    ensures Total(RowsOf(rows, tag), OfLabel(tag), c) == Total(rows, OfLabel(tag), c)
  {
    if rows != [] {
      RowsOfTotal(rows[1..], tag, c);
    }
  }

  lemma BucketValue(m: Measure, k: nat)
    requires k < |m.buckets|
    ensures Value(m, Bucket(k)) == m.buckets[k] as real
  {
  }

  /** The merged buckets of a label's rows are the histogram of every flushed duration. */
  lemma MergedBucketsAreHistogram(s: State, tag: Label)
    requires TableInv(s)
    ensures Shapely(RowsOf(s.rows, tag))
    ensures SumOfRows(RowsOf(s.rows, tag)).buckets == Histo(Durations(Observations(LogOf(s, tag))))
  {
    var rows, histo := RowsOf(s.rows, tag), Histo(Durations(Observations(LogOf(s, tag))));
    var sums := SumOfRows(rows).buckets;
    forall k | 0 <= k < WIDTH ensures sums[k] == histo[k] {
      SumOfRowsIsTotal(rows, OfLabel(tag), Bucket(k));
      RowsOfTotal(s.rows, tag, Bucket(k));
      assert Total(s.rows, OfLabel(tag), Bucket(k)) == Figure(Observations(LogOf(s, tag)), Bucket(k));
      BucketFigure(Observations(LogOf(s, tag)), k);
      BucketValue(SumOfRows(rows), k);
    }
  }

  /** In every run, for every label with flushed requests and every quantile up to 1: the percentile
      read off the merged rows of all processes, minutes and hours is missing exactly when the
      ceil(q·n)-th smallest of the n flushed durations exceeds the last bound, and otherwise lies in the
      bucket that duration falls in. */
  lemma PercentileOfTable(acts: seq<Act>, tag: Label, quantile: real) returns (x: real)
    requires IsRun(Init(), acts) && 0.0 < quantile <= 1.0
    requires LogOf(After(Init(), acts), tag) != []
    ensures var s := After(Init(), acts);
            var durations := Durations(Observations(LogOf(s, tag)));
            && Shapely(RowsOf(s.rows, tag))
            && H.IsKth(durations, H.Ceil(H.Rank(quantile, |durations|)), x)
            && ReadsBucketOf(SumOfRows(RowsOf(s.rows, tag)).buckets, quantile, x)
  {
    InitHolds();
    RunKeepsInv(Init(), acts);
    var s := After(Init(), acts);
    var durations := Durations(Observations(LogOf(s, tag)));
    MergedBucketsAreHistogram(s, tag);
    x := PercentileOfDurations(durations, quantile);
  }

  lemma PercentileOfDurations(durations: seq<real>, quantile: real) returns (x: real)
    requires durations != [] && 0.0 < quantile <= 1.0
    ensures H.IsKth(durations, H.Ceil(H.Rank(quantile, |durations|)), x)
    ensures ReadsBucketOf(Histo(durations), quantile, x)
  {
    H.RankInRange(|durations|, quantile);
    x := H.KthExists(durations, H.Ceil(H.Rank(quantile, |durations|)));
    H.DefaultBoundsAscend();
    H.PercentileInBucketOfOrderStatistic(H.BUCKET_BOUNDS_MS, durations, quantile, x);
  }

  /** The percentile of these counts is in the bucket of `x`, or missing when that is the unbounded one. */
  ghost predicate ReadsBucketOf(counts: seq<int>, quantile: real, x: real) {
    && (forall i :: 0 <= i < |counts| ==> counts[i] >= 0)
    && (var buckets: H.Buckets := counts;
        var p, slot := H.PercentileOf(H.BUCKET_BOUNDS_MS, buckets, quantile), H.BucketIndex(H.BUCKET_BOUNDS_MS, x);
        if slot == |H.BUCKET_BOUNDS_MS| then p.NoValue?
        else p.Value? && H.Lower(H.BUCKET_BOUNDS_MS, slot) < p.ms <= H.BUCKET_BOUNDS_MS[slot])
  }

  // ── The flusher ───────────────────────────────────────────────────────────────────────────────

  lemma DeltasAreShaped(previous: Snapshot, current: Snapshot)
    requires Shaped(previous) && Shaped(current)
    ensures Shaped(DeltasOf(previous, current))
  {
  }

  lemma NothingToFlush(rows: seq<Row>, instance: string, minute: int)
    requires Unique(rows) && Shapely(rows)
    ensures Flushed(rows, rows, instance, minute, map[])
  {
  }

  class MetricsFlusher {
    const instance: string
    var previous: Snapshot
    ghost var flushed: History

    ghost predicate Valid()
      reads this
    {
      previous == SnapshotOf(flushed)
    }

    constructor (instance: string)
      ensures Valid() && this.instance == instance && flushed == map[]
    {
      this.instance, previous, flushed := instance, map[], map[];
    }

    /** One flush: the `Flush` step when it commits, the `FlushFails` step when it raises. */
    method Tick(accumulator: MetricsAccumulator, table: RequestMetrics, minute: int, commits: bool) returns (ok: bool)
      requires Valid() && accumulator.Valid() && table.Valid()
      modifies this, table
      ensures Valid() && table.Valid()
      ensures ok <==> commits || DeltasOf(SnapshotOf(old(flushed)), SnapshotOf(accumulator.history)) == map[]
      ensures ok ==> flushed == accumulator.history
      ensures var deltas := DeltasOf(SnapshotOf(old(flushed)), SnapshotOf(accumulator.history));
              ok ==> Flushed(old(table.rows), table.rows, instance, minute, deltas)
      ensures !ok ==> flushed == old(flushed) && table.rows == old(table.rows)
    {
      SnapshotsAreShaped(flushed);
      SnapshotsAreShaped(accumulator.history);
      DeltasAreShaped(previous, accumulator.stats);
      NothingToFlush(table.rows, instance, minute);
      var snapshot := accumulator.stats;
      var deltas := SnapshotDeltas(previous, snapshot);
      if deltas != map[] {
        if !commits {
          return false;
        }
        table.AddDeltas(instance, minute, deltas);
      }
      previous, flushed := snapshot, accumulator.history;
      ok := true;
    }
  }
}
