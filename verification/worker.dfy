/** The queue's table, the delivery wrapper and the worker as they run, each proved against the
    functions the queue's state machine steps by. */
module Worker {
  import Journal
  import opened Queue

  /** The claims taken on `ids`, in order. */
  function ClaimAll(rows: Rows, ids: seq<Id>, now: nat): Rows
    requires forall id :: id in ids ==> id in rows
  {
    map id | id in rows :: if id in ids then ClaimRow(rows[id], now) else rows[id]
  }

  // ── What the statements leave, column by column ──────────────────────────────────────────────

  /** The rows the claim statement may take: neither done nor parked, due, and not held by another claim
      statement or by a claim less than five minutes old. */
  ghost function Claimable(rows: Rows, locked: set<Id>, now: nat): set<Id> {
    set id | id in rows && id !in locked
             && rows[id].doneAt.None? && rows[id].failedAt.None? && rows[id].runAt <= now
             && (rows[id].lockedAt.None? || rows[id].lockedAt.value + 300 < now)
  }

  ghost predicate OthersKept(before: Rows, task: Id, after: Rows) {
    forall id :: id in before && id != task ==> id in after && after[id] == before[id]
  }

  /** The task is done and unlocked; a recurring one has one new row, due an interval from now. */
  ghost predicate Completed(before: Rows, nextId: Id, c: Claim, now: nat, after: Rows, afterId: Id) {
    && OthersKept(before, c.task, after)
    && (c.task in before ==>
          c.task in after && after[c.task] == before[c.task].(doneAt := Some(now), lockedAt := None))
    && (if c.recurring.Some? && c.recurring.value > 0 then
          && afterId == nextId + 1 && after.Keys == before.Keys + {nextId} && nextId !in before
          && after[nextId] == Row(c.topic, c.event, c.recurring, c.maxAttempts, now + c.recurring.value, 0,
                                  None, None, None)
        else afterId == nextId && after.Keys == before.Keys)
  }

  /** The successor of a recurring task has a rival: another row of its topic, recurring and unfinished. */
  ghost predicate HasRival(rows: Rows, c: Claim) {
    && c.recurring.Some? && c.recurring.value > 0
    && exists id :: id in rows && id != c.task && rows[id].topic == c.topic && rows[id].recurring.Some?
                    && rows[id].doneAt.None? && rows[id].failedAt.None?
  }

  /** The task is unlocked and due again a minute from now. */
  ghost predicate PutBack(before: Rows, task: Id, now: nat, after: Rows) {
    && OthersKept(before, task, after) && after.Keys == before.Keys
    && (task in before ==> after[task] == before[task].(lockedAt := None, runAt := now + 60))
  }

  /** The task is parked and unlocked. */
  ghost predicate Parked(before: Rows, task: Id, now: nat, after: Rows) {
    && OthersKept(before, task, after) && after.Keys == before.Keys
    && (task in before ==> after[task] == before[task].(failedAt := Some(now), lockedAt := None))
  }

  class TaskTable {
    var rows: Rows
    var nextId: Id

    ghost predicate Valid()
      reads this
    {
      forall id :: id in rows ==> id < nextId
    }

    constructor ()
      ensures Valid() && rows == map[] && nextId == 0
    {
      rows, nextId := map[], 0;
    }

    /** One new row: due now, never attempted, unclaimed, unfinished. */
    method Enqueue(topic: Topic, event: Option<Journal.Key>, maxAttempts: nat, now: nat)
      requires Valid()
      modifies this
      ensures Valid() && old(nextId) !in old(rows) && nextId == old(nextId) + 1
      ensures rows == old(rows)[old(nextId) := Row(topic, event, None, maxAttempts, now, 0, None, None, None)]
    {
      rows := rows[nextId := NewRow(topic, event, None, maxAttempts, now)];
      nextId := nextId + 1;
    }

    /** Insert-or-nothing against the index on unfinished recurring rows. */
    method EnsureScheduled(topic: Topic, every: nat, now: nat)
      requires Valid()
      modifies this
      ensures Valid() && old(nextId) !in old(rows)
      ensures var pending := exists id :: id in old(rows) && old(rows)[id].topic == topic
                                          && old(rows)[id].recurring.Some? && old(rows)[id].doneAt.None?
                                          && old(rows)[id].failedAt.None?;
              if pending then rows == old(rows) && nextId == old(nextId)
              else nextId == old(nextId) + 1 &&
                   rows == old(rows)[old(nextId) := Row(topic, None, Some(every), 5, now, 0, None, None, None)]
    {
      if !(exists id :: id in rows && rows[id].PendingRecurring(topic)) {
        rows := rows[nextId := NewRow(topic, None, Some(every), 5, now)];
        nextId := nextId + 1;
      }
    }

    /** The earliest due row of `ids`. */
    method EarliestDue(ids: set<Id>) returns (first: Id)
      requires ids != {} && ids <= rows.Keys
      ensures first in ids && forall id :: id in ids ==> rows[first].runAt <= rows[id].runAt
    {
      first :| first in ids;
      var rest := ids - {first};
      while rest != {}
        invariant first in ids && rest <= ids
        invariant forall id :: id in ids && id !in rest ==> rows[first].runAt <= rows[id].runAt
      {
        var id :| id in rest;
        if rows[id].runAt < rows[first].runAt {
          first := id;
        }
        rest := rest - {id};
      }
    }

    /** Claim up to `batch` claimable rows, all of them when they are fewer, earliest due first, skipping
        those another claim statement has locked. */
    method ClaimBatch(batch: nat, locked: set<Id>, now: nat) returns (claims: seq<Claim>, ids: seq<Id>)
      modifies this`rows
      ensures |ids| <= batch && forall i, j :: 0 <= i < j < |ids| ==> ids[i] != ids[j]
      ensures var claimable := Claimable(old(rows), locked, now);
              && (forall id :: id in ids ==> id in claimable)
              && (|ids| < batch ==> forall id :: id in claimable ==> id in ids)
              && (forall a, b :: a in ids && b in claimable && b !in ids ==> old(rows)[a].runAt <= old(rows)[b].runAt)
      ensures rows == ClaimAll(old(rows), ids, now)
      ensures forall id :: id in rows ==>
                rows[id] == if id !in ids then old(rows)[id]
                            else old(rows)[id].(lockedAt := Some(now), attempts := old(rows)[id].attempts + 1)
      ensures |claims| == |ids|
      ensures forall k :: 0 <= k < |ids| ==>
                var row := old(rows)[ids[k]];
                claims[k] == Claim(ids[k], row.topic, row.event, row.recurring, row.maxAttempts, row.attempts + 1, now,
                                   Claimed)
    {
      ids, claims := [], [];
      ghost var claimable := Claimable(rows, locked, now);
      var left := set id | id in rows && id !in locked && rows[id].Ready(now);
      assert left == claimable;
      while |ids| < batch && left != {}
        invariant rows == old(rows) && left <= claimable
        invariant forall id :: id in claimable ==> (id in ids <==> id !in left)
        invariant forall id :: id in ids ==> id in claimable
        invariant forall i, j :: 0 <= i < j < |ids| ==> ids[i] != ids[j]
        invariant |ids| <= batch
        invariant forall a, b :: a in ids && b in left ==> rows[a].runAt <= rows[b].runAt
        invariant |claims| == |ids|
        invariant forall k :: 0 <= k < |ids| ==> ids[k] in rows && claims[k] == TakeClaim(ids[k], rows[ids[k]], now)
        decreases left
      {
        var id := EarliestDue(left);
        claims := claims + [TakeClaim(id, rows[id], now)];
        ids := ids + [id];
        left := left - {id};
      }
      rows := ClaimAll(rows, ids, now);
    }

    /** Done, and the next run of a recurring topic, in one transaction; false when the index refused
        the second pending row and nothing was written. */
    method Complete(c: Claim, now: nat) returns (written: bool)
      requires Valid()
      modifies this
      ensures Valid() && (rows, nextId) == CompleteTask(old(rows), old(nextId), c, now)
      ensures written <==> !HasRival(old(rows), c)
      ensures written ==> Completed(old(rows), old(nextId), c, now, rows, nextId)
      ensures !written ==> rows == old(rows) && nextId == old(nextId)
    {
      var marked: Rows := MarkDone(rows, c.task, now);
      if Recurs(c) {
        if exists id :: id in marked && marked[id].PendingRecurring(c.topic) {
          assert HasRival(old(rows), c);
          return false;
        }
        rows := marked[nextId := NewRow(c.topic, c.event, c.recurring, c.maxAttempts, now + c.recurring.value)];
        nextId := nextId + 1;
      } else {
        rows := marked;
      }
      assert forall id :: id in old(rows) && id != c.task ==> marked[id] == old(rows)[id];
      written := true;
    }

    /** Unlocked, due again after the backoff; a row that is gone is left gone. */
    method Retry(c: Claim, now: nat)
      requires Valid()
      modifies this`rows
      ensures Valid() && PutBack(old(rows), c.task, now, rows)
    {
      if c.task in rows {
        rows := rows[c.task := rows[c.task].(lockedAt := None, runAt := now + RETRY_BACKOFF)];
      }
    }

    /** Parked, whatever the row had become since the claim. */
    method Fail(c: Claim, now: nat)
      requires Valid()
      modifies this`rows
      ensures Valid() && Parked(old(rows), c.task, now, rows)
    {
      if c.task in rows {
        rows := rows[c.task := rows[c.task].(failedAt := Some(now), lockedAt := None)];
      }
    }

    /** Deletes the receipts past retention and nothing else: what is pending or parked is kept
        whatever its age. */
    method PurgeFinishedTasks(retention: nat, now: nat) returns (deleted: nat)
      modifies this`rows
      ensures rows == PurgeRows(old(rows), now, retention)
      ensures forall id :: id in rows ==> id in old(rows) && rows[id] == old(rows)[id]
      ensures forall id :: id in old(rows) ==>
                (id in rows <==> old(rows)[id].doneAt.None? || now <= old(rows)[id].doneAt.value + retention)
      ensures deleted == |old(rows)| - |rows|
    {
      var before := rows;
      rows := PurgeRows(rows, now, retention);
      assert rows.Keys <= before.Keys;
      assert before.Keys == rows.Keys + (before.Keys - rows.Keys);
      deleted := |before| - |rows|;
    }
  }

  // ── The delivery wrapper ──────────────────────────────────────────────────────────────────────

  function Deliveries(delivered: Option<Delivery>): set<Delivery> {
    match delivered
    case None => {}
    case Some(d) => {d}
  }

  /** An idempotent consumer's delivery that its ledger already holds. */
  predicate Skips(consumed: set<Delivery>, delivered: Option<Delivery>, idempotent: bool) {
    idempotent && delivered.Some? && delivered.value in consumed
  }

  function DeliveryOf(c: Claim): Option<Delivery> {
    match c.event
    case None => None
    case Some(event) => Some((c.topic, event))
  }

  /** The two tables a handler's session writes: the ledger of consumed deliveries, and the handler's
      own, seen as a count of committed runs. */
  class Ledger {
    var consumed: set<Delivery>
    var effects: multiset<Delivery>

    constructor ()
      ensures consumed == {} && effects == multiset{}
    {
      consumed, effects := {}, multiset{};
    }

    /** `_run_handler`: the mark of a delivery and the handler's writes are one transaction, which an
        exception rolls back whole. A task without an event has no mark, and its writes are not counted. */
    method Deliver(delivered: Option<Delivery>, idempotent: bool, raises: bool) returns (ok: bool)
      modifies this
      ensures ok <==> Skips(old(consumed), delivered, idempotent) || !raises
      ensures !ok || Skips(old(consumed), delivered, idempotent) ==>
        consumed == old(consumed) && effects == old(effects)
      ensures ok && !Skips(old(consumed), delivered, idempotent) ==>
                && effects == old(effects) + multiset(Deliveries(delivered))
                && consumed == if idempotent then old(consumed) + Deliveries(delivered) else old(consumed)
    {
      if delivered.None? {
        return !raises;
      }
      var d := delivered.value;
      // The session's uncommitted view.
      var marks := consumed;
      if idempotent {
        var already := d in marks;
        marks := marks + {d};
        if already {
          return true;
        }
      }
      if raises {
        return false;
      }
      consumed, effects := marks, effects + multiset{d};
      ok := true;
    }
  }

  // ── The worker ────────────────────────────────────────────────────────────────────────────────

  /** `_process`: one claimed task, from handler to outcome. Returns false when writing the outcome itself
      failed. */
  method Process(table: TaskTable, db: Ledger, c: Claim, hasHandler: bool, idempotent: bool, raises: bool, now: nat)
    returns (written: bool)
    requires table.Valid()
    modifies table, db
    ensures table.Valid()
    ensures var delivered := DeliveryOf(c);
            var skips := Skips(old(db.consumed), delivered, idempotent);
            var ok := hasHandler && (skips || !raises);
            && (ok ==> (table.rows, table.nextId) == CompleteTask(old(table.rows), old(table.nextId), c, now))
            && (ok ==> (written <==> !HasRival(old(table.rows), c)))
            && (ok && written ==> Completed(old(table.rows), old(table.nextId), c, now, table.rows, table.nextId))
            && (ok && !written ==> table.rows == old(table.rows))
            && (!ok ==> written && table.nextId == old(table.nextId))
            && (!ok && hasHandler && c.attempts < c.maxAttempts ==>
                  PutBack(old(table.rows), c.task, now, table.rows)
                  && table.rows == MarkRetry(old(table.rows), c.task, now))
            && (!ok && !(hasHandler && c.attempts < c.maxAttempts) ==>
                  Parked(old(table.rows), c.task, now, table.rows)
                  && table.rows == MarkFailed(old(table.rows), c.task, now))
            && db.effects == old(db.effects) + (if ok && !skips then multiset(Deliveries(delivered)) else multiset{})
            && db.consumed == old(db.consumed) + (if ok && idempotent then Deliveries(delivered) else {})
  {
    written := true;
    ghost var before := table.rows;
    if !hasHandler {
      table.Fail(c, now);
      assert table.rows == MarkFailed(before, c.task, now);
      return;
    }
    var ok := db.Deliver(DeliveryOf(c), idempotent, raises);
    if ok {
      written := table.Complete(c, now);
    } else if c.attempts >= c.maxAttempts {
      table.Fail(c, now);
      assert table.rows == MarkFailed(before, c.task, now);
    } else {
      table.Retry(c, now);
      assert table.rows == MarkRetry(before, c.task, now);
    }
  }

  // ── The methods step as the machine does ──────────────────────────────────────────────────────

  /** The machine's inserts write the columns the methods do. */
  lemma InsertsAreSteps(
    s: State, idempotent: set<Topic>, topic: Topic, event: Option<Journal.Key>, maxAttempts: nat, every: nat)
    ensures var t := Apply(s, idempotent, Act.Enqueue(topic, event, maxAttempts));
            && t.rows == s.rows[s.nextId := Row(topic, event, None, maxAttempts, s.now, 0, None, None, None)]
            && t.nextId == s.nextId + 1 && t.claims == s.claims && t.now == s.now
            && t.consumed == s.consumed && t.effects == s.effects
    ensures var t := Apply(s, idempotent, Act.EnsureScheduled(topic, every));
            var pending := exists id :: id in s.rows && s.rows[id].topic == topic && s.rows[id].recurring.Some?
                                     && s.rows[id].doneAt.None? && s.rows[id].failedAt.None?;
            if pending then t == s
            else t == s.(rows := s.rows[s.nextId := Row(topic, None, Some(every), 5, s.now, 0, None, None, None)],
                         nextId := s.nextId + 1)
  {
    assert HasPending(s.rows, topic) <==>
      exists id :: id in s.rows && s.rows[id].topic == topic && s.rows[id].recurring.Some?
                   && s.rows[id].doneAt.None? && s.rows[id].failedAt.None?;
  }

  function TakeActs(ids: seq<Id>, c: nat): seq<Act> {
    seq(|ids|, k requires 0 <= k < |ids| => TakeTask(c + k, ids[k]))
  }

  /** A batch is so many single claims at one instant. */
  lemma {:induction false} BatchIsTakes(s: State, idempotent: set<Topic>, ids: seq<Id>, c: nat)
    requires forall id :: id in ids ==> id in s.rows && s.rows[id].Ready(s.now)
    requires forall i, j :: 0 <= i < j < |ids| ==> ids[i] != ids[j]
    requires forall k :: k >= c ==> k !in s.claims
    ensures IsRun(s, idempotent, TakeActs(ids, c))
    ensures After(s, idempotent, TakeActs(ids, c)).rows == ClaimAll(s.rows, ids, s.now)
    decreases |ids|
  {
    if ids != [] {
      var t := Apply(s, idempotent, TakeTask(c, ids[0]));
      assert TakeActs(ids, c)[1..] == TakeActs(ids[1..], c + 1);
      assert ids == [ids[0]] + ids[1..];
      BatchIsTakes(t, idempotent, ids[1..], c + 1);
      assert ClaimAll(t.rows, ids[1..], s.now) == ClaimAll(s.rows, ids, s.now);
    } else {
      assert ClaimAll(s.rows, ids, s.now) == s.rows;
    }
  }

  /** The claims a batch leaves are the columns it read, and no other claim changes. */
  lemma {:induction false} BatchLeavesClaims(s: State, idempotent: set<Topic>, ids: seq<Id>, c: nat, k: nat)
    requires forall id :: id in ids ==> id in s.rows
    requires forall i, j :: 0 <= i < j < |ids| ==> ids[i] != ids[j]
    ensures var claims := After(s, idempotent, TakeActs(ids, c)).claims;
            if c <= k < c + |ids| then k in claims && claims[k] == TakeClaim(ids[k - c], s.rows[ids[k - c]], s.now)
            else (k in claims <==> k in s.claims) && (k in s.claims ==> claims[k] == s.claims[k])
    decreases |ids|
  {
    if ids != [] {
      var t := Apply(s, idempotent, TakeTask(c, ids[0]));
      assert TakeActs(ids, c)[1..] == TakeActs(ids[1..], c + 1);
      assert ids == [ids[0]] + ids[1..];
      BatchLeavesClaims(t, idempotent, ids[1..], c + 1, k);
    }
  }

  /** The steps of a worker that runs a claimed delivery to its outcome without interruption. */
  function ProcessActs(c: nat, claim: Claim, hasHandler: bool, skips: bool, raises: bool): seq<Act> {
    if !hasHandler then [Act.Fail(c)]
    else if skips || !raises then [StartHandler(c), CommitHandler(c), Act.Complete(c)]
    else [StartHandler(c), RaiseHandler(c), if claim.attempts < claim.maxAttempts then Act.Retry(c) else Act.Fail(c)]
  }

  lemma ThreeSteps(s: State, idempotent: set<Topic>, a: Act, b: Act, c: Act)
    requires Enabled(s, idempotent, a) && Enabled(Apply(s, idempotent, a), idempotent, b)
    requires Enabled(Apply(Apply(s, idempotent, a), idempotent, b), idempotent, c)
    ensures IsRun(s, idempotent, [a, b, c])
    ensures After(s, idempotent, [a, b, c]) == Apply(Apply(Apply(s, idempotent, a), idempotent, b), idempotent, c)
  {
    var s1 := Apply(s, idempotent, a);
    var s2 := Apply(s1, idempotent, b);
    var s3 := Apply(s2, idempotent, c);
    assert [a, b, c][1..] == [b, c] && [b, c][1..] == [c] && [c][1..] == [];
    assert IsRun(s3, idempotent, []) && After(s3, idempotent, []) == s3;
    assert IsRun(s2, idempotent, [c]) && After(s2, idempotent, [c]) == s3;
    assert IsRun(s1, idempotent, [b, c]) && After(s1, idempotent, [b, c]) == s3;
  }

  lemma HandlerCommits(s: State, idempotent: set<Topic>, c: nat)
    requires c in s.claims && s.claims[c].phase.Claimed? && !MarkIsHeld(s, idempotent, s.claims[c])
    ensures Enabled(s, idempotent, StartHandler(c))
    ensures Enabled(Apply(s, idempotent, StartHandler(c)), idempotent, CommitHandler(c))
    ensures var claim := s.claims[c];
            var skips := Skips(s.consumed, DeliveryOf(claim), claim.topic in idempotent);
            var t := Apply(Apply(s, idempotent, StartHandler(c)), idempotent, CommitHandler(c));
            && t.claims == s.claims[c := claim.(phase := Ran)]
            && t.rows == s.rows && t.nextId == s.nextId && t.now == s.now
            && t.effects == s.effects + (if skips then multiset{} else multiset(Deliveries(DeliveryOf(claim))))
            && t.consumed == s.consumed + (if claim.topic in idempotent then Deliveries(DeliveryOf(claim)) else {})
  {
    var claim := s.claims[c];
    var skips := Skips(s.consumed, DeliveryOf(claim), claim.topic in idempotent);
    var started := Apply(s, idempotent, StartHandler(c));
    assert started.claims == s.claims[c := claim.(phase := Open(!skips))] && started.effects == s.effects;
    var done := Apply(started, idempotent, CommitHandler(c));
    assert done.claims == s.claims[c := claim.(phase := Ran)];
    if claim.event.None? {
      assert Deliveries(DeliveryOf(claim)) == {} && s.consumed + {} == s.consumed;
    } else {
      var d := (claim.topic, claim.event.value);
      assert Deliveries(DeliveryOf(claim)) == {d} && multiset({d}) == multiset{d};
      assert skips ==> s.consumed + {d} == s.consumed;
    }
  }

  lemma CompletedRun(s: State, idempotent: set<Topic>, c: nat)
    requires c in s.claims && s.claims[c].phase.Claimed? && !MarkIsHeld(s, idempotent, s.claims[c])
    ensures var claim := s.claims[c];
            var skips := Skips(s.consumed, DeliveryOf(claim), claim.topic in idempotent);
            var acts := [StartHandler(c), CommitHandler(c), Act.Complete(c)];
            var t := After(s, idempotent, acts);
            && IsRun(s, idempotent, acts)
            && t.claims == s.claims - {c}
            && (t.rows, t.nextId) == CompleteTask(s.rows, s.nextId, claim, s.now)
            && t.effects == s.effects + (if skips then multiset{} else multiset(Deliveries(DeliveryOf(claim))))
            && t.consumed == s.consumed + (if claim.topic in idempotent then Deliveries(DeliveryOf(claim)) else {})
  {
    var claim := s.claims[c];
    HandlerCommits(s, idempotent, c);
    ThreeSteps(s, idempotent, StartHandler(c), CommitHandler(c), Act.Complete(c));
    assert CompleteTask(s.rows, s.nextId, claim.(phase := Ran), s.now) == CompleteTask(s.rows, s.nextId, claim, s.now);
  }

  lemma RaisedRun(s: State, idempotent: set<Topic>, c: nat, outcome: Act)
    requires c in s.claims && s.claims[c].phase.Claimed? && !MarkIsHeld(s, idempotent, s.claims[c])
    requires outcome == if s.claims[c].attempts < s.claims[c].maxAttempts then Act.Retry(c) else Act.Fail(c)
    ensures var claim := s.claims[c];
            var acts := [StartHandler(c), RaiseHandler(c), outcome];
            var t := After(s, idempotent, acts);
            && IsRun(s, idempotent, acts)
            && t.claims == s.claims - {c} && t.nextId == s.nextId
            && t.rows == (if claim.attempts < claim.maxAttempts
                          then MarkRetry(s.rows, claim.task, s.now) else MarkFailed(s.rows, claim.task, s.now))
            && t.effects == s.effects && t.consumed == s.consumed
  {
    var claim := s.claims[c];
    var s2 := Apply(Apply(s, idempotent, StartHandler(c)), idempotent, RaiseHandler(c));
    assert s2.claims == s.claims[c := claim.(phase := Raised)];
    ThreeSteps(s, idempotent, StartHandler(c), RaiseHandler(c), outcome);
  }

  /** Run uninterrupted on a fresh claim, those steps are a run of the machine, and leave the tables
      exactly as `Process` promises. */
  lemma ProcessIsARun(s: State, idempotent: set<Topic>, c: nat, hasHandler: bool, raises: bool)
    requires c in s.claims && s.claims[c].phase.Claimed? && !MarkIsHeld(s, idempotent, s.claims[c])
    ensures var claim := s.claims[c];
            var skips := Skips(s.consumed, DeliveryOf(claim), claim.topic in idempotent);
            var ok := hasHandler && (skips || !raises);
            var acts := ProcessActs(c, claim, hasHandler, skips, raises);
            var t := After(s, idempotent, acts);
            && IsRun(s, idempotent, acts)
            && t.claims == s.claims - {c}
            && (ok ==> (t.rows, t.nextId) == CompleteTask(s.rows, s.nextId, claim, s.now))
            && (!ok ==> t.nextId == s.nextId)
            && (!ok ==> t.rows == if hasHandler && claim.attempts < claim.maxAttempts
                               then MarkRetry(s.rows, claim.task, s.now) else MarkFailed(s.rows, claim.task, s.now))
            && t.effects == s.effects + (if ok && !skips then multiset(Deliveries(DeliveryOf(claim))) else multiset{})
            && t.consumed == s.consumed
                           + (if ok && claim.topic in idempotent then Deliveries(DeliveryOf(claim)) else {})
  {
    var claim := s.claims[c];
    var skips := Skips(s.consumed, DeliveryOf(claim), claim.topic in idempotent);
    if !hasHandler {
      assert [Act.Fail(c)][1..] == [];
      var t := Apply(s, idempotent, Act.Fail(c));
      assert IsRun(t, idempotent, []) && After(t, idempotent, []) == t;
    } else if skips || !raises {
      CompletedRun(s, idempotent, c);
    } else {
      RaisedRun(s, idempotent, c, if claim.attempts < claim.maxAttempts then Act.Retry(c) else Act.Fail(c));
    }
  }
}
