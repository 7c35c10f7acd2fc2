/** The request counters of one process: what they hold, and what a flush reads off two snapshots. */
module Metrics {
  import opened Histogram

  /** One observed request: its status class ("2xx") and its duration. */
  datatype Observation = Observation(status: string, duration: real)

  /** Method and route. */
  type Label = (string, string)

  datatype Stats = Stats(byStatus: map<string, int>, buckets: seq<int>, durationSum: real)

  type Snapshot = map<Label, Stats>

  const ERRORS := "5xx"

  // ── What the counters hold ────────────────────────────────────────────────────────────────────

  function StatusCount(seen: seq<Observation>, status: string): nat {
    if seen == [] then 0
    else StatusCount(seen[..|seen| - 1], status) + if seen[|seen| - 1].status == status then 1 else 0
  }

  function Durations(seen: seq<Observation>): seq<real> {
    seq(|seen|, i requires 0 <= i < |seen| => seen[i].duration)
  }

  function SumOfDurations(seen: seq<Observation>): real {
    if seen == [] then 0.0 else SumOfDurations(seen[..|seen| - 1]) + seen[|seen| - 1].duration
  }

  function StatusCounts(seen: seq<Observation>): map<string, int> {
    map status | status in (set o | o in seen :: o.status) :: StatusCount(seen, status) as int
  }

  function Histo(durations: seq<real>): (b: Buckets)
    ensures |b| == |BUCKET_BOUNDS_MS| + 1
  {
    Of(BUCKET_BOUNDS_MS, durations)
  }

  /** The counters of one label after the requests `seen`. */
  function StatsOf(seen: seq<Observation>): Stats {
    Stats(StatusCounts(seen), Histo(Durations(seen)), SumOfDurations(seen))
  }

  lemma {:induction false} StatusSeen(seen: seq<Observation>, status: string)
    ensures status in StatusCounts(seen) <==> StatusCount(seen, status) > 0
  {
    if seen != [] {
      var init := seen[..|seen| - 1];
      StatusSeen(init, status);
      assert forall o :: o in seen <==> o in init || o == seen[|seen| - 1];
    }
  }

  lemma {:induction false} StatusCountConcat(a: seq<Observation>, b: seq<Observation>, status: string)
    ensures StatusCount(a + b, status) == StatusCount(a, status) + StatusCount(b, status)
    decreases |b|
  {
    if b == [] {
      assert a + b == a;
    } else {
      StatusCountConcat(a, b[..|b| - 1], status);
      assert (a + b)[..|a + b| - 1] == a + b[..|b| - 1];
    }
  }

  lemma {:induction false} SumOfDurationsConcat(a: seq<Observation>, b: seq<Observation>)
    ensures SumOfDurations(a + b) == SumOfDurations(a) + SumOfDurations(b)
    decreases |b|
  {
    if b == [] {
      assert a + b == a;
    } else {
      SumOfDurationsConcat(a, b[..|b| - 1]);
      assert (a + b)[..|a + b| - 1] == a + b[..|b| - 1];
    }
  }

  lemma HistoConcat(a: seq<real>, b: seq<real>)
    ensures Histo(a + b) == Add(Histo(a), Histo(b))
  {
    OfConcat(BUCKET_BOUNDS_MS, a, b);
  }

  // ── One observation at a time: `observe` ──────────────────────────────────────────────────────

  function EmptyStats(): Stats { Stats(map[], Zeros(|BUCKET_BOUNDS_MS| + 1), 0.0) }

  function GetStatus(byStatus: map<string, int>, status: string): int {
    if status in byStatus then byStatus[status] else 0
  }

  function Observed(stats: Stats, o: Observation): Stats
    requires |stats.buckets| == |BUCKET_BOUNDS_MS| + 1
  {
    var slot := BucketIndex(BUCKET_BOUNDS_MS, o.duration);
    Stats(stats.byStatus[o.status := GetStatus(stats.byStatus, o.status) + 1],
          stats.buckets[slot := stats.buckets[slot] + 1], stats.durationSum + o.duration)
  }

  lemma ObservedStatus(seen: seq<Observation>, o: Observation)
    ensures StatusCounts(seen)[o.status := GetStatus(StatusCounts(seen), o.status) + 1] == StatusCounts(seen + [o])
  {
    var all := seen + [o];
    assert all[..|all| - 1] == seen;
    var left, right := StatusCounts(seen)[o.status := GetStatus(StatusCounts(seen), o.status) + 1], StatusCounts(all);
    forall status
      ensures status in left <==> status in right
      ensures status in left ==> left[status] == right[status]
    {
      StatusSeen(seen, status);
      StatusSeen(all, status);
    }
  }

  lemma ObservedDuration(durations: seq<real>, duration: real)
    ensures Histo(durations + [duration]) == Bump(Histo(durations), BucketIndex(BUCKET_BOUNDS_MS, duration))
  {
    var all := durations + [duration];
    assert all[..|all| - 1] == durations;
  }

  lemma ObservedBuckets(seen: seq<Observation>, o: Observation)
    ensures Observed(StatsOf(seen), o).buckets == Histo(Durations(seen + [o]))
  {
    assert Durations(seen + [o]) == Durations(seen) + [o.duration];
    ObservedDuration(Durations(seen), o.duration);
    assert StatsOf(seen).buckets == Histo(Durations(seen));
  }

  lemma ObservedSum(seen: seq<Observation>, o: Observation)
    ensures SumOfDurations(seen + [o]) == SumOfDurations(seen) + o.duration
  {
    assert (seen + [o])[..|seen|] == seen;
  }

  /** Counting incrementally holds what counting the whole history would. */
  lemma ObservedIsStatsOf(seen: seq<Observation>, o: Observation)
    ensures Observed(StatsOf(seen), o) == StatsOf(seen + [o])
  {
    ObservedStatus(seen, o);
    ObservedBuckets(seen, o);
    ObservedSum(seen, o);
  }

  lemma NothingSeen()
    ensures StatsOf([]) == EmptyStats()
  {
    assert Durations([]) == [];
  }

  /** The counters of every label after its history. */
  function SnapshotOf(history: map<Label, seq<Observation>>): Snapshot {
    map tag | tag in history :: StatsOf(history[tag])
  }

  lemma ObserveKeepsSnapshot(history: map<Label, seq<Observation>>, tag: Label, o: Observation)
    ensures |GetStats(SnapshotOf(history), tag).buckets| == |BUCKET_BOUNDS_MS| + 1
    ensures SnapshotOf(history)[tag := Observed(GetStats(SnapshotOf(history), tag), o)]
         == SnapshotOf(history[tag := SeenBy(history, tag) + [o]])
  {
    SnapshotGet(history, tag);
    ObservedIsStatsOf(SeenBy(history, tag), o);
  }

  // ── Between two snapshots: `snapshot_deltas` ──────────────────────────────────────────────────

  function DeltaByStatus(stats: Stats, prev: Stats): map<string, int> {
    map status | status in stats.byStatus && stats.byStatus[status] - GetStatus(prev.byStatus, status) != 0
      :: stats.byStatus[status] - GetStatus(prev.byStatus, status)
  }

  function Minus(a: seq<int>, b: seq<int>): seq<int>
    requires |a| == |b|
  {
    seq(|a|, i requires 0 <= i < |a| => a[i] - b[i])
  }

  function Delta(stats: Stats, prev: Stats): Stats
    requires |stats.buckets| == |prev.buckets|
  {
    Stats(DeltaByStatus(stats, prev), Minus(stats.buckets, prev.buckets), stats.durationSum - prev.durationSum)
  }

  function GetStats(snapshot: Snapshot, tag: Label): Stats {
    if tag in snapshot then snapshot[tag] else EmptyStats()
  }

  /** Every snapshot's histograms have one slot per bound and the unbounded one. */
  ghost predicate Shaped(snapshot: Snapshot) {
    forall tag :: tag in snapshot ==> |snapshot[tag].buckets| == |BUCKET_BOUNDS_MS| + 1
  }

  method SnapshotDeltas(previous: Snapshot, current: Snapshot) returns (deltas: Snapshot)
    requires Shaped(previous) && Shaped(current)
    ensures deltas == DeltasOf(previous, current)
  {
    deltas := map[];
    var left := current.Keys;
    ghost var all := DeltasOf(previous, current);
    while left != {}
      invariant left <= current.Keys
      invariant deltas.Keys == all.Keys - left
      invariant forall tag :: tag in deltas ==> deltas[tag] == all[tag]
    {
      var tag :| tag in left;
      var stats, prev := current[tag], GetStats(previous, tag);
      var byStatus := DeltaByStatus(stats, prev);
      if byStatus != map[] {
        deltas := deltas[tag := Stats(byStatus, Minus(stats.buckets, prev.buckets),
                                        stats.durationSum - prev.durationSum)];
        assert deltas[tag] == all[tag];
      }
      left := left - {tag};
    }
  }

  function DeltasOf(previous: Snapshot, current: Snapshot): Snapshot
    requires Shaped(previous) && Shaped(current)
  {
    map tag | tag in current && DeltaByStatus(current[tag], GetStats(previous, tag)) != map[]
      :: Delta(current[tag], GetStats(previous, tag))
  }

  lemma DeltaOfStatuses(before: seq<Observation>, since: seq<Observation>)
    ensures DeltaByStatus(StatsOf(before + since), StatsOf(before)) == StatusCounts(since)
  {
    var delta := DeltaByStatus(StatsOf(before + since), StatsOf(before));
    forall status
      ensures status in delta <==> status in StatusCounts(since)
      ensures status in delta ==> delta[status] == StatusCounts(since)[status]
    {
      StatusSeen(before, status);
      StatusSeen(since, status);
      StatusSeen(before + since, status);
      StatusCountConcat(before, since, status);
    }
  }

  lemma DeltaOfBuckets(before: seq<Observation>, since: seq<Observation>)
    ensures Minus(Histo(Durations(before + since)), Histo(Durations(before))) == Histo(Durations(since))
  {
    assert Durations(before + since) == Durations(before) + Durations(since);
    HistoConcat(Durations(before), Durations(since));
  }

  /** For one label the delta is the counters of the requests in between, and it is skipped exactly when
      there were none: unchanged status counts mean unchanged buckets and duration too. */
  lemma DeltaIsNewObservations(before: seq<Observation>, since: seq<Observation>)
    ensures Delta(StatsOf(before + since), StatsOf(before)) == StatsOf(since)
    ensures DeltaByStatus(StatsOf(before + since), StatsOf(before)) == map[] <==> since == []
  {
    DeltaOfStatuses(before, since);
    DeltaOfBuckets(before, since);
    SumOfDurationsConcat(before, since);
    if since != [] {
      assert since[0] in since;
      assert since[0].status in StatusCounts(since);
    } else {
      assert StatusCounts(since) == map[];
    }
  }

  function SeenBy(history: map<Label, seq<Observation>>, tag: Label): seq<Observation> {
    if tag in history then history[tag] else []
  }

  /** `later` continues `earlier`. */
  ghost predicate Extends(earlier: map<Label, seq<Observation>>, later: map<Label, seq<Observation>>) {
    forall tag :: SeenBy(earlier, tag) <= SeenBy(later, tag)
  }

  function NewSince(
    earlier: map<Label, seq<Observation>>, later: map<Label, seq<Observation>>, tag: Label): seq<Observation>
    requires Extends(earlier, later)
  {
    SeenBy(later, tag)[|SeenBy(earlier, tag)|..]
  }

  lemma SnapshotsAreShaped(history: map<Label, seq<Observation>>)
    ensures Shaped(SnapshotOf(history))
  {
  }

  lemma SnapshotGet(history: map<Label, seq<Observation>>, tag: Label)
    ensures GetStats(SnapshotOf(history), tag) == StatsOf(SeenBy(history, tag))
  {
    NothingSeen();
  }

  /** The deltas of two snapshots of one process are exactly the counters a fresh process would hold had
      it seen only the requests in between. */
  lemma DeltasAreNewObservations(earlier: map<Label, seq<Observation>>, later: map<Label, seq<Observation>>)
    requires Extends(earlier, later)
    ensures Shaped(SnapshotOf(earlier)) && Shaped(SnapshotOf(later))
    ensures var deltas := DeltasOf(SnapshotOf(earlier), SnapshotOf(later));
            forall tag :: && (tag in deltas <==> NewSince(earlier, later, tag) != [])
                          && (tag in deltas ==> deltas[tag] == StatsOf(NewSince(earlier, later, tag)))
  {
    var deltas := DeltasOf(SnapshotOf(earlier), SnapshotOf(later));
    forall tag
      ensures tag in deltas <==> NewSince(earlier, later, tag) != []
      ensures tag in deltas ==> deltas[tag] == StatsOf(NewSince(earlier, later, tag))
    {
      var before, since := SeenBy(earlier, tag), NewSince(earlier, later, tag);
      assert SeenBy(later, tag) == before + since;
      SnapshotGet(earlier, tag);
      SnapshotGet(later, tag);
      DeltaIsNewObservations(before, since);
    }
  }

  // ── The totals a row stores ───────────────────────────────────────────────────────────────────

  ghost function SumValues(counts: map<string, int>): int {
    if counts == map[] then 0
    else
      var key :| key in counts;
      counts[key] + SumValues(counts - {key})
  }

  lemma SumValuesSplit(counts: map<string, int>, key: string)
    requires key in counts
    ensures SumValues(counts) == counts[key] + SumValues(counts - {key})
    decreases |counts|
  {
    var picked :| picked in counts && SumValues(counts) == counts[picked] + SumValues(counts - {picked});
    if picked != key {
      SumValuesSplit(counts - {picked}, key);
      SumValuesSplit(counts - {key}, picked);
      assert counts - {picked} - {key} == counts - {key} - {picked};
    }
  }

  /** Status counts and buckets both add up to the number of requests. */
  lemma {:induction false} StatusesSumToRequests(seen: seq<Observation>)
    ensures SumValues(StatusCounts(seen)) == |seen|
  {
    if seen == [] {
      assert StatusCounts(seen) == map[];
    } else {
      var init, o := seen[..|seen| - 1], seen[|seen| - 1];
      assert seen == init + [o];
      StatusesSumToRequests(init);
      ObservedStatus(init, o);
      var before, after := StatusCounts(init), StatusCounts(seen);
      SumValuesSplit(after, o.status);
      assert after - {o.status} == before - {o.status};
      if o.status in before {
        SumValuesSplit(before, o.status);
      } else {
        assert before - {o.status} == before;
      }
    }
  }

  // ── The accumulator ───────────────────────────────────────────────────────────────────────────

  const UNMATCHED_ROUTE := "unmatched"
  const UNMATCHED_LABEL_CAP := 25
  const KNOWN_METHODS: set<string> := {"GET", "HEAD", "POST", "PUT", "PATCH", "DELETE", "OPTIONS"}
  const OTHER_METHOD := "OTHER"

  /** The label an unmatched path counts under: its own while there is room, then the shared one. */
  function BoundedLabel(paths: set<string>, path: string): string {
    if path in paths || |paths| < UNMATCHED_LABEL_CAP then path else UNMATCHED_ROUTE
  }

  class MetricsAccumulator {
    var stats: Snapshot
    var unmatchedPaths: set<string>
    ghost var history: map<Label, seq<Observation>>

    ghost predicate Valid()
      reads this
    {
      stats == SnapshotOf(history) && |unmatchedPaths| <= UNMATCHED_LABEL_CAP
    }

    constructor ()
      ensures Valid() && history == map[] && unmatchedPaths == {}
    {
      stats, unmatchedPaths, history := map[], {}, map[];
    }

    method BoundedUnmatchedLabel(path: string) returns (tag: string)
      requires |unmatchedPaths| <= UNMATCHED_LABEL_CAP
      modifies this`unmatchedPaths
      ensures tag == BoundedLabel(old(unmatchedPaths), path)
      ensures unmatchedPaths == if |old(unmatchedPaths)| < UNMATCHED_LABEL_CAP
                                then old(unmatchedPaths) + {path} else old(unmatchedPaths)
      ensures |unmatchedPaths| <= UNMATCHED_LABEL_CAP
    {
      if path in unmatchedPaths {
        assert unmatchedPaths + {path} == unmatchedPaths;
        return path;
      }
      if |unmatchedPaths| >= UNMATCHED_LABEL_CAP {
        return UNMATCHED_ROUTE;
      }
      unmatchedPaths := unmatchedPaths + {path};
      tag := path;
    }

    /** Count one request; the class invariant says the counters hold every request so far. */
    method Observe(verb: string, path: string, status: string, duration: real, unmatched: bool)
      requires Valid()
      modifies this
      ensures Valid()
      ensures unmatchedPaths == if unmatched && |old(unmatchedPaths)| < UNMATCHED_LABEL_CAP
                                then old(unmatchedPaths) + {path} else old(unmatchedPaths)
      ensures var tag := (if verb in KNOWN_METHODS then verb else OTHER_METHOD,
                            if unmatched then BoundedLabel(old(unmatchedPaths), path) else path);
              var before := if tag in old(history) then old(history)[tag] else [];
              history == old(history)[tag := before + [Observation(status, duration)]]
    {
      var route := path;
      if unmatched {
        route := BoundedUnmatchedLabel(path);
      }
      var tag := (if verb in KNOWN_METHODS then verb else OTHER_METHOD, route);
      var o := Observation(status, duration);
      ObserveKeepsSnapshot(history, tag, o);
      stats := stats[tag := Observed(GetStats(stats, tag), o)];
      history := history[tag := SeenBy(history, tag) + [o]];
    }
  }
}
