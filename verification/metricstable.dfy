/** The request-metrics table: rows merged into their slot, and minute rows rolled up into hour rows. */
module MetricsTable {
  import opened Histogram
  import opened Metrics

  datatype Resolution = Minute | Hour

  /** What identifies a row. `start` is in seconds. */
  datatype Slot = Slot(start: int, resolution: Resolution, instance: string, tag: Label)

  datatype Measure = Measure(requests: int, errors: int, duration: real, buckets: seq<int>)

  datatype Row = Row(slot: Slot, measure: Measure)

  const WIDTH: nat := |BUCKET_BOUNDS_MS| + 1
  const ALL_INSTANCES := "*"

  /** The hour a moment falls in. */
  function HourOf(start: int): (hour: int)
    ensures hour % 3600 == 0 && hour <= start < hour + 3600
  {
    start - start % 3600
  }

  function NothingMeasured(): Measure { Measure(0, 0, 0.0, Zeros(WIDTH)) }

  function Plus(a: Measure, b: Measure): Measure
    requires |a.buckets| == |b.buckets|
  {
    Measure(a.requests + b.requests, a.errors + b.errors, a.duration + b.duration,
            seq(|a.buckets|, i requires 0 <= i < |a.buckets| => a.buckets[i] + b.buckets[i]))
  }

  /** The database's unique key over the five identifying columns. */
  ghost predicate Unique(rows: seq<Row>) {
    forall i, j :: 0 <= i < j < |rows| ==> rows[i].slot != rows[j].slot
  }

  ghost predicate Shapely(rows: seq<Row>) {
    forall row :: row in rows ==> |row.measure.buckets| == WIDTH
  }

  // ── Totals ────────────────────────────────────────────────────────────────────────────────────

  /** The figures of a row, one at a time. */
  datatype Component = Requests | Errors | Duration | Bucket(index: nat)

  function Value(m: Measure, c: Component): real {
    match c
    case Requests => m.requests as real
    case Errors => m.errors as real
    case Duration => m.duration
    case Bucket(i) => if i < |m.buckets| then m.buckets[i] as real else 0.0
  }

  /** Which rows of one method and route a total reads. */
  datatype Scope = OfLabel(tag: Label) | OfHour(tag: Label, hour: int) | OfInstance(tag: Label, instance: string)

  predicate Covers(scope: Scope, slot: Slot) {
    && slot.tag == scope.tag
    && (scope.OfHour? ==> HourOf(slot.start) == scope.hour)
    && (scope.OfInstance? ==> slot.instance == scope.instance)
  }

  function Share(scope: Scope, slot: Slot, m: Measure, c: Component): real {
    if Covers(scope, slot) then Value(m, c) else 0.0
  }

  function Total(rows: seq<Row>, scope: Scope, c: Component): real {
    if rows == [] then 0.0 else Share(scope, rows[0].slot, rows[0].measure, c) + Total(rows[1..], scope, c)
  }

  lemma PlusAdds(a: Measure, b: Measure, c: Component)
    requires |a.buckets| == |b.buckets|
    ensures Value(Plus(a, b), c) == Value(a, c) + Value(b, c)
  {
  }

  // ── Merging one measure into its row ──────────────────────────────────────────────────────────

  function Merged(rows: seq<Row>, slot: Slot, m: Measure): (r: seq<Row>)
    requires Shapely(rows) && |m.buckets| == WIDTH
    ensures Shapely(r)
  {
    if rows == [] then [Row(slot, m)]
    else if rows[0].slot == slot then [Row(slot, Plus(rows[0].measure, m))] + rows[1..]
    else [rows[0]] + Merged(rows[1..], slot, m)
  }

  lemma {:induction false} MergedAdds(rows: seq<Row>, slot: Slot, m: Measure, scope: Scope, c: Component)
    requires Shapely(rows) && |m.buckets| == WIDTH
    ensures Total(Merged(rows, slot, m), scope, c) == Total(rows, scope, c) + Share(scope, slot, m, c)
  {
    var r := Merged(rows, slot, m);
    if rows == [] {
      assert r[1..] == [];
    } else if rows[0].slot == slot {
      PlusAdds(rows[0].measure, m, c);
      assert r[1..] == rows[1..];
    } else {
      MergedAdds(rows[1..], slot, m, scope, c);
      assert r[1..] == Merged(rows[1..], slot, m);
    }
  }

  lemma {:induction false} MergedMembers(rows: seq<Row>, slot: Slot, m: Measure, row: Row)
    requires Shapely(rows) && |m.buckets| == WIDTH && Unique(rows)
    ensures row.slot != slot ==> (row in Merged(rows, slot, m) <==> row in rows)
  {
    if rows == [] {
    } else if rows[0].slot == slot {
      assert rows[0] in rows;
      forall other | other in rows[1..] ensures other.slot != slot {
        var j :| 0 <= j < |rows| - 1 && rows[1..][j] == other;
        assert rows[j + 1].slot != rows[0].slot;
      }
    } else {
      MergedMembers(rows[1..], slot, m, row);
      assert forall other :: other in rows <==> other == rows[0] || other in rows[1..];
    }
  }

  lemma {:induction false} MergedKeepsUnique(rows: seq<Row>, slot: Slot, m: Measure)
    requires Shapely(rows) && |m.buckets| == WIDTH && Unique(rows)
    ensures Unique(Merged(rows, slot, m))
    ensures forall s :: HasSlot(Merged(rows, slot, m), s) <==> s == slot || HasSlot(rows, s)
  {
    var r := Merged(rows, slot, m);
    if rows == [] {
      assert r[0].slot == slot;
    } else if rows[0].slot == slot {
      assert |r| == |rows| && forall i :: 0 <= i < |r| ==> r[i].slot == rows[i].slot;
      SameSlots(rows, r);
    } else {
      MergedKeepsUnique(rows[1..], slot, m);
      var rest := Merged(rows[1..], slot, m);
      SlotsCons(rows[0], rows[1..]);
      SlotsCons(rows[0], rest);
      assert rows == [rows[0]] + rows[1..];
      assert !HasSlot(rows[1..], rows[0].slot);
      assert !HasSlot(rest, rows[0].slot);
      assert forall i :: 0 <= i < |rest| ==> r[i + 1] == rest[i];
    }
  }

  ghost predicate HasSlot(rows: seq<Row>, slot: Slot) { exists i :: 0 <= i < |rows| && rows[i].slot == slot }

  lemma SameSlots(a: seq<Row>, b: seq<Row>)
    requires |a| == |b| && forall i :: 0 <= i < |a| ==> a[i].slot == b[i].slot
    ensures forall s :: HasSlot(a, s) <==> HasSlot(b, s)
  {
    forall s | HasSlot(a, s) ensures HasSlot(b, s) {
      var i :| 0 <= i < |a| && a[i].slot == s;
      assert b[i].slot == s;
    }
    forall s | HasSlot(b, s) ensures HasSlot(a, s) {
      var i :| 0 <= i < |b| && b[i].slot == s;
      assert a[i].slot == s;
    }
  }

  lemma SlotsCons(row: Row, rest: seq<Row>)
    ensures forall s :: HasSlot([row] + rest, s) <==> s == row.slot || HasSlot(rest, s)
  {
    forall s ensures HasSlot([row] + rest, s) <==> s == row.slot || HasSlot(rest, s) {
      if HasSlot(rest, s) {
        var i :| 0 <= i < |rest| && rest[i].slot == s;
        assert ([row] + rest)[i + 1].slot == s;
      }
      if s == row.slot {
        assert ([row] + rest)[0].slot == s;
      }
    }
  }

  lemma {:induction false} MergedAt(rows: seq<Row>, slot: Slot, m: Measure, k: nat)
    requires Shapely(rows) && |m.buckets| == WIDTH
    requires k <= |rows| && forall i :: 0 <= i < k ==> rows[i].slot != slot
    ensures k == |rows| ==> Merged(rows, slot, m) == rows + [Row(slot, m)]
    ensures k < |rows| && rows[k].slot == slot ==>
      Merged(rows, slot, m) == rows[k := Row(slot, Plus(rows[k].measure, m))]
  {
    if k > 0 {
      MergedAt(rows[1..], slot, m, k - 1);
    }
  }

  // ── Rollup ────────────────────────────────────────────────────────────────────────────────────

  /** The hour, method and route a stale row collapses into. */
  type Group = (int, Label)

  function GroupOf(slot: Slot): Group { (HourOf(slot.start), slot.tag) }

  function HourSlot(g: Group): Slot { Slot(g.0, Hour, ALL_INSTANCES, g.1) }

  predicate IsStale(slot: Slot, cutoff: int) { slot.resolution == Minute && slot.start < cutoff }

  function Stale(rows: seq<Row>, cutoff: int): (r: seq<Row>)
    ensures forall row :: row in r <==> row in rows && IsStale(row.slot, cutoff)
  {
    if rows == [] then []
    else if IsStale(rows[0].slot, cutoff) then [rows[0]] + Stale(rows[1..], cutoff)
    else Stale(rows[1..], cutoff)
  }

  function Members(rows: seq<Row>, g: Group): (r: seq<Row>)
    ensures forall row :: row in r <==> row in rows && GroupOf(row.slot) == g
  {
    if rows == [] then []
    else if GroupOf(rows[0].slot) == g then [rows[0]] + Members(rows[1..], g)
    else Members(rows[1..], g)
  }

  lemma {:induction false} MembersSnoc(rows: seq<Row>, row: Row, g: Group)
    ensures Members(rows + [row], g) == if GroupOf(row.slot) == g then Members(rows, g) + [row] else Members(rows, g)
  {
    if rows != [] {
      MembersSnoc(rows[1..], row, g);
      assert (rows + [row])[1..] == rows[1..] + [row];
    }
  }

  function GroupsOf(rows: seq<Row>): set<Group> { set row | row in rows :: GroupOf(row.slot) }

  /** The rows without the stale rows of the groups `done`. */
  function Without(rows: seq<Row>, cutoff: int, done: set<Group>): (r: seq<Row>)
    ensures forall row :: row in r <==> row in rows && !(IsStale(row.slot, cutoff) && GroupOf(row.slot) in done)
  {
    if rows == [] then []
    else if IsStale(rows[0].slot, cutoff) && GroupOf(rows[0].slot) in done then Without(rows[1..], cutoff, done)
    else [rows[0]] + Without(rows[1..], cutoff, done)
  }

  function SumOfRows(rows: seq<Row>): (m: Measure)
    requires Shapely(rows)
    ensures |m.buckets| == WIDTH
  {
    if rows == [] then NothingMeasured() else Plus(SumOfRows(rows[..|rows| - 1]), rows[|rows| - 1].measure)
  }

  lemma {:induction false} TotalSnoc(rows: seq<Row>, row: Row, scope: Scope, c: Component)
    ensures Total(rows + [row], scope, c) == Total(rows, scope, c) + Share(scope, row.slot, row.measure, c)
  {
    if rows == [] {
      assert (rows + [row])[1..] == [];
    } else {
      TotalSnoc(rows[1..], row, scope, c);
      assert (rows + [row])[1..] == rows[1..] + [row];
    }
  }

  lemma {:induction false} SumOfRowsIsTotal(rows: seq<Row>, scope: Scope, c: Component)
    requires Shapely(rows) && forall row :: row in rows ==> Covers(scope, row.slot)
    ensures Value(SumOfRows(rows), c) == Total(rows, scope, c)
  {
    if rows != [] {
      var init, last := rows[..|rows| - 1], rows[|rows| - 1];
      SumOfRowsIsTotal(init, scope, c);
      assert rows == init + [last];
      TotalSnoc(init, last, scope, c);
      PlusAdds(SumOfRows(init), last.measure, c);
    }
  }

  lemma {:induction false} TotalOfNone(rows: seq<Row>, scope: Scope, c: Component)
    requires forall row :: row in rows ==> !Covers(scope, row.slot)
    ensures Total(rows, scope, c) == 0.0
  {
    if rows != [] {
      TotalOfNone(rows[1..], scope, c);
    }
  }

  /** Dropping one more group takes exactly its stale rows out of every total. */
  lemma {:induction false} DropGroup(
    rows: seq<Row>, cutoff: int, done: set<Group>, g: Group, scope: Scope, c: Component)
    requires g !in done
    ensures Total(Without(rows, cutoff, done), scope, c)
         == Total(Without(rows, cutoff, done + {g}), scope, c) + Total(Members(Stale(rows, cutoff), g), scope, c)
  {
    if rows != [] {
      DropGroup(rows[1..], cutoff, done, g, scope, c);
    }
  }

  lemma {:induction false} WithoutMerged(rows: seq<Row>, cutoff: int, done: set<Group>, slot: Slot, m: Measure)
    requires Shapely(rows) && |m.buckets| == WIDTH && slot.resolution == Hour
    ensures Shapely(Without(rows, cutoff, done))
    ensures Without(Merged(rows, slot, m), cutoff, done) == Merged(Without(rows, cutoff, done), slot, m)
    ensures Stale(Merged(rows, slot, m), cutoff) == Stale(rows, cutoff)
  {
    if rows != [] {
      WithoutMerged(rows[1..], cutoff, done, slot, m);
    }
  }

  /** Totals of a label or of an hour do not see a group collapse into its hour row. */
  lemma CollapseConserves(rows: seq<Row>, cutoff: int, done: set<Group>, g: Group, scope: Scope, c: Component)
    requires Shapely(rows) && g !in done && !scope.OfInstance? && HourOf(g.0) == g.0
    ensures Shapely(Members(Stale(rows, cutoff), g))
    ensures var m := SumOfRows(Members(Stale(rows, cutoff), g));
            var merged := Merged(rows, HourSlot(g), m);
            Total(Without(merged, cutoff, done + {g}), scope, c) == Total(Without(rows, cutoff, done), scope, c)
  {
    var group := Members(Stale(rows, cutoff), g);
    var m := SumOfRows(group);
    WithoutMerged(rows, cutoff, done + {g}, HourSlot(g), m);
    MergedAdds(Without(rows, cutoff, done + {g}), HourSlot(g), m, scope, c);
    DropGroup(rows, cutoff, done, g, scope, c);
    if Covers(scope, HourSlot(g)) {
      SumOfRowsIsTotal(group, scope, c);
    } else {
      TotalOfNone(group, scope, c);
    }
  }

  // ── The table ─────────────────────────────────────────────────────────────────────────────────

  /** One label's delta as a row stores it. */
  ghost function MeasureOf(stats: Stats): Measure {
    Measure(SumValues(stats.byStatus), GetStatus(stats.byStatus, ERRORS), stats.durationSum, stats.buckets)
  }

  function MinuteSlot(instance: string, minute: int, tag: Label): Slot { Slot(minute, Minute, instance, tag) }

  /** `after` is `before` with one flush added. */
  ghost predicate Flushed(before: seq<Row>, after: seq<Row>, instance: string, minute: int, deltas: Snapshot) {
    && Unique(after)
    && Shapely(after)
    && (forall scope, c ::
          Total(after, scope, c) == Total(before, scope, c) + Gained(scope, instance, minute, deltas, c))
    && (forall row: Row :: row.slot != Slot(minute, Minute, instance, row.slot.tag) || row.slot.tag !in deltas ==>
      (row in after <==> row in before))
  }

  /** What a flush adds to one total. */
  ghost function Gained(scope: Scope, instance: string, minute: int, deltas: Snapshot, c: Component): real {
    if scope.tag in deltas
    then Share(scope, Slot(minute, Minute, instance, scope.tag), MeasureOf(deltas[scope.tag]), c)
    else 0.0
  }

  /** `after` is `before` rolled up: every label's and every hour's totals are the same, stale minute rows
      are gone, and no row changed but the hour rows they collapsed into. */
  ghost predicate RolledUp(before: seq<Row>, after: seq<Row>, cutoff: int) {
    && Unique(after)
    && Shapely(after)
    && (forall scope: Scope, c: Component :: !scope.OfInstance? ==> Total(after, scope, c) == Total(before, scope, c))
    && (forall row: Row :: row.slot.resolution == Minute ==>
      (row in after <==> row in before && row.slot.start >= cutoff))
    && (forall row: Row :: row.slot.resolution == Hour && !IsHourOf(row.slot, GroupsOf(Stale(before, cutoff))) ==>
      (row in after <==> row in before))
  }

  predicate IsHourOf(slot: Slot, groups: set<Group>) {
    (slot.start, slot.tag) in groups && slot.instance == ALL_INSTANCES
  }

  function Deleted(rows: seq<Row>, slots: set<Slot>): seq<Row> {
    if rows == [] then []
    else if rows[0].slot in slots then Deleted(rows[1..], slots)
    else [rows[0]] + Deleted(rows[1..], slots)
  }

  lemma {:induction false} DeletedIsWithout(rows: seq<Row>, slots: set<Slot>, cutoff: int, done: set<Group>)
    requires forall row :: row in rows ==>
      (row.slot in slots <==> IsStale(row.slot, cutoff) && GroupOf(row.slot) in done)
    ensures Deleted(rows, slots) == Without(rows, cutoff, done)
  {
    if rows != [] {
      assert rows[0] in rows;
      DeletedIsWithout(rows[1..], slots, cutoff, done);
    }
  }

  lemma {:induction false} WithoutUnique(rows: seq<Row>, cutoff: int, done: set<Group>)
    requires Unique(rows)
    ensures Unique(Without(rows, cutoff, done))
  {
    if rows != [] {
      var rest := Without(rows[1..], cutoff, done);
      WithoutUnique(rows[1..], cutoff, done);
      forall i | 0 <= i < |rest| ensures rest[i].slot != rows[0].slot {
        assert rest[i] in rest;
        var j :| 0 <= j < |rows| - 1 && rows[1..][j] == rest[i];
        assert rows[j + 1] == rest[i];
      }
    }
  }

  lemma {:induction false} WithoutNone(rows: seq<Row>, cutoff: int)
    ensures Without(rows, cutoff, {}) == rows
  {
    if rows != [] {
      WithoutNone(rows[1..], cutoff);
    }
  }

  lemma HourOfHour(start: int)
    ensures HourOf(HourOf(start)) == HourOf(start)
  {
  }

  method SumStatuses(byStatus: map<string, int>) returns (total: int)
    ensures total == SumValues(byStatus)
  {
    total := 0;
    var left := byStatus;
    while left != map[]
      invariant total + SumValues(left) == SumValues(byStatus)
      decreases |left|
    {
      var status :| status in left;
      SumValuesSplit(left, status);
      total := total + left[status];
      left := left - {status};
    }
  }

  /** Every bucket summed over the rows. */
  method MergedBuckets(rows: seq<Row>) returns (merged: seq<int>)
    requires Shapely(rows)
    ensures merged == SumOfRows(rows).buckets
  {
    merged := Zeros(WIDTH);
    for n := 0 to |rows|
      invariant merged == SumOfRows(rows[..n]).buckets
    {
      assert rows[n] in rows;
      assert rows[..n + 1][..n] == rows[..n];
      var counts := rows[n].measure.buckets;
      var before := merged;
      for i := 0 to |counts|
        invariant |merged| == |before| == |counts|
        invariant forall j :: 0 <= j < |counts| ==> merged[j] == before[j] + if j < i then counts[j] else 0
      {
        merged := merged[i := merged[i] + counts[i]];
      }
      assert merged == Plus(SumOfRows(rows[..n]), rows[n].measure).buckets;
    }
    assert rows[..|rows|] == rows;
  }

  class RequestMetrics {
    var rows: seq<Row>

    ghost predicate Valid()
      reads this
    {
      Unique(rows) && Shapely(rows)
    }

    constructor ()
      ensures Valid() && rows == []
    {
      rows := [];
    }

    method MergeRow(slot: Slot, m: Measure)
      requires Valid() && |m.buckets| == WIDTH
      modifies this
      ensures Valid() && rows == Merged(old(rows), slot, m)
    {
      var k := 0;
      while k < |rows| && rows[k].slot != slot
        invariant 0 <= k <= |rows| && rows == old(rows)
        invariant forall i :: 0 <= i < k ==> rows[i].slot != slot
      {
        k := k + 1;
      }
      MergedAt(rows, slot, m, k);
      MergedKeepsUnique(rows, slot, m);
      if k == |rows| {
        rows := rows + [Row(slot, m)];
      } else {
        assert rows[k] in rows;
        rows := rows[k := Row(slot, Plus(rows[k].measure, m))];
      }
    }

    method AddDeltas(instance: string, minute: int, deltas: Snapshot)
      requires Valid() && Shaped(deltas)
      modifies this
      ensures Valid() && Flushed(old(rows), rows, instance, minute, deltas)
    {
      var left := deltas.Keys;
      ghost var done: Snapshot := map[];
      while left != {}
        invariant Valid() && left <= deltas.Keys
        invariant done == map tag | tag in deltas && tag !in left :: deltas[tag]
        invariant Flushed(old(rows), rows, instance, minute, done)
      {
        var tag :| tag in left;
        var requests := SumStatuses(deltas[tag].byStatus);
        var errors := GetStatus(deltas[tag].byStatus, ERRORS);
        var m := Measure(requests, errors, deltas[tag].durationSum, deltas[tag].buckets);
        FlushOneMore(old(rows), rows, instance, minute, done, tag, deltas[tag]);
        MergeRow(MinuteSlot(instance, minute, tag), m);
        left := left - {tag};
        done := done[tag := deltas[tag]];
      }
      assert done == deltas;
    }

    method CollapseGroup(g: Group, group: seq<Row>, cutoff: int, ghost before: seq<Row>, ghost done: set<Group>)
      requires Valid() && Collapsed(before, rows, cutoff, done)
      requires g in GroupsOf(Stale(before, cutoff)) && g !in done && group == Members(Stale(before, cutoff), g)
      modifies this
      ensures Valid() && Collapsed(before, rows, cutoff, done + {g})
    {
      CollapseOneMore(before, rows, cutoff, done, g);
      var buckets := MergedBuckets(group);
      var sums := SumOfRows(group);
      MergeRow(HourSlot(g), Measure(sums.requests, sums.errors, sums.duration, buckets));
    }

    method CollapseGroups(merged: map<Group, seq<Row>>, cutoff: int)
      requires Valid() && merged.Keys == GroupsOf(Stale(rows, cutoff))
      requires forall g :: g in merged ==> merged[g] == Members(Stale(rows, cutoff), g)
      modifies this
      ensures Valid() && Collapsed(old(rows), rows, cutoff, merged.Keys)
    {
      var left := merged.Keys;
      ghost var before, done: set<Group> := rows, {};
      CollapsedNone(rows, cutoff);
      while left != {}
        invariant Valid() && left <= merged.Keys && done == merged.Keys - left
        invariant Collapsed(before, rows, cutoff, done)
      {
        var g :| g in left;
        CollapseGroup(g, merged[g], cutoff, before, done);
        left, done := left - {g}, done + {g};
      }
      assert done == merged.Keys;
    }

    /** Collapse the minute rows before `cutoff` into hour rows shared by every instance. */
    method Rollup(cutoff: int) returns (removed: nat, touched: nat)
      requires Valid()
      modifies this
      ensures Valid() && RolledUp(old(rows), rows, cutoff)
      ensures removed == |Stale(old(rows), cutoff)|
      ensures touched == |GroupsOf(Stale(old(rows), cutoff))|
    {
      var stale := Stale(rows, cutoff);
      var merged := Grouped(stale);
      CollapseGroups(merged, cutoff);
      DeletingRollsUp(old(rows), rows, cutoff);
      rows := Deleted(rows, set row | row in stale :: row.slot);
      removed, touched := |stale|, |merged.Keys|;
    }
  }

  /** The stale rows by group, in order. */
  method Grouped(stale: seq<Row>) returns (merged: map<Group, seq<Row>>)
    ensures merged.Keys == GroupsOf(stale)
    ensures forall g :: g in merged ==> merged[g] == Members(stale, g)
  {
    merged := map[];
    for i := 0 to |stale|
      invariant merged.Keys == GroupsOf(stale[..i])
      invariant forall g :: Looked(merged, g) == Members(stale[..i], g)
    {
      var g := GroupOf(stale[i].slot);
      assert stale[..i + 1] == stale[..i] + [stale[i]];
      ghost var before := merged;
      merged := merged[g := Looked(merged, g) + [stale[i]]];
      forall h ensures Looked(merged, h) == Members(stale[..i + 1], h) {
        assert Looked(before, h) == Members(stale[..i], h);
        MembersSnoc(stale[..i], stale[i], h);
      }
    }
    assert stale[..|stale|] == stale;
    forall g | g in merged ensures merged[g] == Members(stale, g) {
      assert Looked(merged, g) == merged[g];
    }
  }

  function Looked(merged: map<Group, seq<Row>>, g: Group): seq<Row> {
    if g in merged then merged[g] else []
  }

  /** The groups `done` are merged into their hour rows; their stale rows are still there. */
  ghost predicate Collapsed(before: seq<Row>, rows: seq<Row>, cutoff: int, done: set<Group>) {
    && Stale(rows, cutoff) == Stale(before, cutoff)
    && (forall scope: Scope, c: Component :: !scope.OfInstance? ==>
      Total(Without(rows, cutoff, done), scope, c) == Total(before, scope, c))
    && (forall row: Row :: row.slot.resolution == Minute || !IsHourOf(row.slot, done) ==>
          (row in rows <==> row in before))
  }

  lemma CollapsedNone(rows: seq<Row>, cutoff: int)
    ensures Collapsed(rows, rows, cutoff, {})
  {
    WithoutNone(rows, cutoff);
  }

  lemma CollapseOneMore(before: seq<Row>, rows: seq<Row>, cutoff: int, done: set<Group>, g: Group)
    requires Unique(rows) && Shapely(rows) && Collapsed(before, rows, cutoff, done)
    requires g in GroupsOf(Stale(before, cutoff)) && g !in done
    ensures Shapely(Members(Stale(rows, cutoff), g))
    ensures Collapsed(before, Merged(rows, HourSlot(g), SumOfRows(Members(Stale(rows, cutoff), g))), cutoff, done + {g})
  {
    var m := SumOfRows(Members(Stale(rows, cutoff), g));
    var after := Merged(rows, HourSlot(g), m);
    var row :| row in Stale(before, cutoff) && GroupOf(row.slot) == g;
    HourOfHour(row.slot.start);
    WithoutMerged(rows, cutoff, done, HourSlot(g), m);
    forall scope: Scope, c: Component | !scope.OfInstance?
      ensures Total(Without(after, cutoff, done + {g}), scope, c) == Total(before, scope, c)
    {
      CollapseConserves(rows, cutoff, done, g, scope, c);
    }
    forall row: Row | row.slot.resolution == Minute || !IsHourOf(row.slot, done + {g})
      ensures row in after <==> row in before
    {
      MergedMembers(rows, HourSlot(g), m, row);
    }
  }

  lemma DeletingRollsUp(before: seq<Row>, rows: seq<Row>, cutoff: int)
    requires Unique(rows) && Shapely(rows) && Collapsed(before, rows, cutoff, GroupsOf(Stale(before, cutoff)))
    ensures RolledUp(before, Deleted(rows, set row | row in Stale(before, cutoff) :: row.slot), cutoff)
  {
    var stale := Stale(before, cutoff);
    var slots := set row | row in stale :: row.slot;
    var groups := GroupsOf(stale);
    forall row | row in rows
      ensures row.slot in slots <==> IsStale(row.slot, cutoff) && GroupOf(row.slot) in groups
    {
      if IsStale(row.slot, cutoff) {
        assert row in Stale(rows, cutoff);
      }
    }
    DeletedIsWithout(rows, slots, cutoff, groups);
    WithoutUnique(rows, cutoff, groups);
    var after := Without(rows, cutoff, groups);
    forall row: Row | row.slot.resolution == Minute
      ensures row in after <==> row in before && row.slot.start >= cutoff
    {
      if row in before && IsStale(row.slot, cutoff) {
        assert row in stale;
      }
    }
  }

  lemma FlushOneMore(
    before: seq<Row>, rows: seq<Row>, instance: string, minute: int, done: Snapshot, tag: Label, stats: Stats)
    requires Flushed(before, rows, instance, minute, done) && tag !in done && |stats.buckets| == WIDTH
    ensures var after := Merged(rows, MinuteSlot(instance, minute, tag), MeasureOf(stats));
            Flushed(before, after, instance, minute, done[tag := stats])
  {
    var slot, m := MinuteSlot(instance, minute, tag), MeasureOf(stats);
    var after := Merged(rows, slot, m);
    MergedKeepsUnique(rows, slot, m);
    forall scope, c
      ensures Total(after, scope, c) == Total(before, scope, c) + Gained(scope, instance, minute, done[tag := stats], c)
    {
      MergedAdds(rows, slot, m, scope, c);
    }
    forall row: Row | row.slot != MinuteSlot(instance, minute, row.slot.tag) || row.slot.tag !in done[tag := stats]
      ensures row in after <==> row in before
    {
      MergedMembers(rows, slot, m, row);
    }
  }
}
