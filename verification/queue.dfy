/** The durable task queue as a state machine: rows, the claims workers hold on them, and the ledger
    that commits with an idempotent consumer's writes. */
module Queue {
  import opened Journal

  const VISIBILITY_TIMEOUT := 300
  const RETRY_BACKOFF := 60

  type Topic = string
  type Id = nat
  type Delivery = (Topic, Key)

  datatype Option<T> = None | Some(value: T)

  /** A row of `task_queue`; `event` is the payload's `event_id`. */
  datatype Row = Row(
    topic: Topic, event: Option<Key>, recurring: Option<nat>, maxAttempts: nat,
    runAt: nat, attempts: nat, lockedAt: Option<nat>, doneAt: Option<nat>, failedAt: Option<nat>)
  {
    predicate Unfinished() { doneAt.None? && failedAt.None? }

    /** What the claim statement selects. */
    predicate Ready(now: nat) {
      Unfinished() && runAt <= now && (lockedAt.None? || lockedAt.value + VISIBILITY_TIMEOUT < now)
    }

    predicate Carries(d: Delivery) { topic == d.0 && event == Some(d.1) }

    predicate PendingRecurring(t: Topic) { topic == t && recurring.Some? && Unfinished() }
  }

  /** Where a worker is with a task it claimed. `Open` is the handler's open transaction, `writes`
      whether it will commit the handler's writes or found the delivery already consumed. */
  datatype Phase = Claimed | Open(writes: bool) | Ran | Raised

  /** The columns a claim returned, and the instant it was taken. */
  datatype Claim = Claim(
    task: Id, topic: Topic, event: Option<Key>, recurring: Option<nat>, maxAttempts: nat, attempts: nat,
    at: nat, phase: Phase)
  {
    predicate Delivers(d: Delivery) { topic == d.0 && event == Some(d.1) }

    /** Whether the handler's transaction inserts the mark of `d`. */
    predicate Marks(idempotent: set<Topic>, d: Delivery) { Delivers(d) && topic in idempotent }

    predicate Writing(idempotent: set<Topic>, d: Delivery) { phase == Open(true) && Marks(idempotent, d) }
  }

  type Rows = map<Id, Row>

  /** `consumed` is the ledger table; `effects` counts, per delivery, the commits of its handler's
      writes; `enqueued` counts the tasks ever inserted for it. */
  datatype State = State(
    now: nat, rows: Rows, nextId: Id, claims: map<nat, Claim>,
    consumed: set<Delivery>, effects: multiset<Delivery>, enqueued: multiset<Delivery>)

  // ── The statements ────────────────────────────────────────────────────────────────────────────

  function NewRow(topic: Topic, event: Option<Key>, recurring: Option<nat>, maxAttempts: nat, runAt: nat): Row {
    Row(topic, event, recurring, maxAttempts, runAt, 0, None, None, None)
  }

  function ClaimRow(row: Row, now: nat): Row {
    row.(lockedAt := Some(now), attempts := row.attempts + 1)
  }

  function TakeClaim(id: Id, row: Row, now: nat): Claim {
    Claim(id, row.topic, row.event, row.recurring, row.maxAttempts, row.attempts + 1, now, Claimed)
  }

  /** The partial unique index on recurring topics. */
  ghost predicate HasPending(rows: Rows, topic: Topic) {
    exists id :: id in rows && rows[id].PendingRecurring(topic)
  }

  function MarkDone(rows: Rows, id: Id, now: nat): Rows {
    if id in rows then rows[id := rows[id].(doneAt := Some(now), lockedAt := None)] else rows
  }

  function MarkRetry(rows: Rows, id: Id, now: nat): Rows {
    if id in rows then rows[id := rows[id].(lockedAt := None, runAt := now + RETRY_BACKOFF)] else rows
  }

  function MarkFailed(rows: Rows, id: Id, now: nat): Rows {
    if id in rows then rows[id := rows[id].(failedAt := Some(now), lockedAt := None)] else rows
  }

  predicate Recurs(c: Claim) { c.recurring.Some? && c.recurring.value > 0 }

  /** `_complete`: done and, for a recurring topic, the next run, in one transaction; the index refuses
      a second pending row and the whole transaction with it. */
  ghost function CompleteTask(rows: Rows, nextId: Id, c: Claim, now: nat): (Rows, Id) {
    var marked := MarkDone(rows, c.task, now);
    if !Recurs(c) then (marked, nextId)
    else if HasPending(marked, c.topic) then (rows, nextId)
    else (marked[nextId := NewRow(c.topic, c.event, c.recurring, c.maxAttempts, now + c.recurring.value)], nextId + 1)
  }

  function PurgeRows(rows: Rows, now: nat, retention: nat): Rows {
    map id | id in rows && !(rows[id].doneAt.Some? && rows[id].doneAt.value + retention < now) :: rows[id]
  }

  // ── The machine ───────────────────────────────────────────────────────────────────────────────

  datatype Act =
    | Elapse(delay: nat)
    | Enqueue(topic: Topic, event: Option<Key>, maxAttempts: nat)
    | EnsureScheduled(topic: Topic, every: nat)
    | TakeTask(c: nat, id: Id)
    | StartHandler(c: nat)
    | CommitHandler(c: nat)
    | RaiseHandler(c: nat)
    | Complete(c: nat)
    | Retry(c: nat)
    | Fail(c: nat)
    | Crash(c: nat)
    | Purge(retention: nat)

  ghost predicate Consumed(s: State, c: Claim, idempotent: set<Topic>) {
    c.event.Some? && c.topic in idempotent && (c.topic, c.event.value) in s.consumed
  }

  /** The insert of a mark waits while another open transaction has inserted the same mark. */
  ghost predicate MarkIsHeld(s: State, idempotent: set<Topic>, c: Claim) {
    c.event.Some? && c.topic in idempotent
    && exists j :: j in s.claims && s.claims[j].Writing(idempotent, (c.topic, c.event.value))
  }

  ghost predicate Enabled(s: State, idempotent: set<Topic>, a: Act) {
    match a
    case Elapse(_) => true
    case Enqueue(_, _, _) => true
    case EnsureScheduled(_, _) => true
    case TakeTask(c, id) => c !in s.claims && id in s.rows && s.rows[id].Ready(s.now)
    case StartHandler(c) =>
      c in s.claims && s.claims[c].phase.Claimed? && !MarkIsHeld(s, idempotent, s.claims[c])
    case CommitHandler(c) => c in s.claims && s.claims[c].phase.Open?
    case RaiseHandler(c) => c in s.claims && s.claims[c].phase.Open?
    case Complete(c) => c in s.claims && s.claims[c].phase.Ran?
    case Retry(c) =>
      c in s.claims && s.claims[c].phase.Raised? && s.claims[c].attempts < s.claims[c].maxAttempts
    case Fail(c) =>
      // The last attempt raised, or this worker has no handler for the topic.
      && c in s.claims
      && (s.claims[c].phase.Claimed?
          || (s.claims[c].phase.Raised? && s.claims[c].attempts >= s.claims[c].maxAttempts))
    case Crash(c) => c in s.claims
    case Purge(_) => true
  }

  ghost function Apply(s: State, idempotent: set<Topic>, a: Act): State {
    match a
    case Elapse(delay) => s.(now := s.now + delay)
    case Enqueue(topic, event, maxAttempts) =>
      s.(rows := s.rows[s.nextId := NewRow(topic, event, None, maxAttempts, s.now)], nextId := s.nextId + 1,
         enqueued := s.enqueued + if event.Some? then multiset{(topic, event.value)} else multiset{})
    case EnsureScheduled(topic, every) =>
      if HasPending(s.rows, topic) then s
      else s.(rows := s.rows[s.nextId := NewRow(topic, None, Some(every), 5, s.now)], nextId := s.nextId + 1)
    case TakeTask(c, id) =>
      if id !in s.rows then s
      else s.(rows := s.rows[id := ClaimRow(s.rows[id], s.now)],
              claims := s.claims[c := TakeClaim(id, s.rows[id], s.now)])
    case StartHandler(c) =>
      if c !in s.claims then s
      else Enter(s, c, Open(!Consumed(s, s.claims[c], idempotent)))
    case CommitHandler(c) =>
      if c !in s.claims then s
      else
        var claim := s.claims[c];
        if claim.phase != Open(true) || claim.event.None? then Enter(s, c, Ran)
        else
          var d := (claim.topic, claim.event.value);
          Enter(s, c, Ran).(effects := s.effects + multiset{d},
                            consumed := if claim.topic in idempotent then s.consumed + {d} else s.consumed)
    case RaiseHandler(c) => if c !in s.claims then s else Enter(s, c, Raised)
    case Complete(c) =>
      if c !in s.claims then s
      else
        var (rows, nextId) := CompleteTask(s.rows, s.nextId, s.claims[c], s.now);
        s.(rows := rows, nextId := nextId, claims := s.claims - {c})
    case Retry(c) =>
      if c !in s.claims then s
      else s.(rows := MarkRetry(s.rows, s.claims[c].task, s.now), claims := s.claims - {c})
    case Fail(c) =>
      if c !in s.claims then s
      else s.(rows := MarkFailed(s.rows, s.claims[c].task, s.now), claims := s.claims - {c})
    case Crash(c) => s.(claims := s.claims - {c})
    case Purge(retention) => s.(rows := PurgeRows(s.rows, s.now, retention))
  }

  function Enter(s: State, c: nat, phase: Phase): State
    requires c in s.claims
  {
    s.(claims := s.claims[c := s.claims[c].(phase := phase)])
  }

  function Init(now: nat): State { State(now, map[], 0, map[], {}, multiset{}, multiset{}) }

  ghost predicate IsRun(s: State, idempotent: set<Topic>, acts: seq<Act>)
    decreases |acts|
  {
    acts == [] || (Enabled(s, idempotent, acts[0]) && IsRun(Apply(s, idempotent, acts[0]), idempotent, acts[1..]))
  }

  ghost function After(s: State, idempotent: set<Topic>, acts: seq<Act>): State
    decreases |acts|
  {
    if acts == [] then s else After(Apply(s, idempotent, acts[0]), idempotent, acts[1..])
  }

  // ── What every run keeps: crashes, lapsed claims and stale outcomes included ──────────────────

  /** At most one row of a recurring topic is unfinished: the partial unique index. */
  ghost predicate OnePending(rows: Rows) {
    forall i, j, t :: i in rows && j in rows && rows[i].PendingRecurring(t) && rows[j].PendingRecurring(t) ==> i == j
  }

  ghost predicate RowFits(id: Id, row: Row, nextId: Id) {
    id < nextId && (row.recurring.Some? ==> row.event.None?)
  }

  /** A claim names a row that still carries what the claim returned, unless a purge took it. */
  ghost predicate ClaimFits(s: State, claim: Claim) {
    && claim.task < s.nextId && claim.at <= s.now && (claim.recurring.Some? ==> claim.event.None?)
    && (claim.task in s.rows ==>
          var row := s.rows[claim.task];
          && claim.topic == row.topic && claim.event == row.event && claim.recurring == row.recurring
          && claim.maxAttempts == row.maxAttempts && row.runAt <= s.now + RETRY_BACKOFF)
  }

  ghost predicate RowsInv(s: State) {
    && (forall id :: id in s.rows ==> RowFits(id, s.rows[id], s.nextId))
    && (forall c :: c in s.claims ==> ClaimFits(s, s.claims[c]))
    && OnePending(s.rows)
  }

  /** Every pending row of `after` was one of `before`. */
  ghost predicate NoNewPending(before: Rows, after: Rows) {
    forall id, t :: id in after && after[id].PendingRecurring(t) ==> id in before && before[id].PendingRecurring(t)
  }

  lemma AddKeepsOnePending(rows: Rows, id: Id, row: Row)
    requires OnePending(rows) && id !in rows
    requires row.recurring.Some? && row.Unfinished() ==> !HasPending(rows, row.topic)
    ensures OnePending(rows[id := row])
  {
  }

  lemma CompleteKeepsOnePending(rows: Rows, nextId: Id, c: Claim, now: nat)
    requires OnePending(rows) && forall id :: id in rows ==> id < nextId
    ensures OnePending(CompleteTask(rows, nextId, c, now).0)
  {
    var marked := MarkDone(rows, c.task, now);
    assert NoNewPending(rows, marked);
    if Recurs(c) && !HasPending(marked, c.topic) {
      AddKeepsOnePending(marked, nextId, NewRow(c.topic, c.event, c.recurring, c.maxAttempts, now + c.recurring.value));
    }
  }

  lemma ApplyKeepsOnePending(s: State, idempotent: set<Topic>, a: Act)
    requires RowsInv(s) && Enabled(s, idempotent, a)
    ensures OnePending(Apply(s, idempotent, a).rows)
  {
    var t := Apply(s, idempotent, a);
    match a
    case Enqueue(topic, event, maxAttempts) =>
      AddKeepsOnePending(s.rows, s.nextId, NewRow(topic, event, None, maxAttempts, s.now));
    case EnsureScheduled(topic, every) =>
      if !HasPending(s.rows, topic) {
        AddKeepsOnePending(s.rows, s.nextId, NewRow(topic, None, Some(every), 5, s.now));
      }
    case Complete(c) => CompleteKeepsOnePending(s.rows, s.nextId, s.claims[c], s.now);
    case _ => assert NoNewPending(s.rows, t.rows);
  }

  /** What any step may do to a row: its identity stays, what is done or parked stays so, a finished
      row's attempts are frozen, and its due time never moves earlier. */
  ghost predicate RowStep(row: Row, next: Row, now: nat) {
    && next.topic == row.topic && next.event == row.event && next.recurring == row.recurring
    && next.maxAttempts == row.maxAttempts
    && (row.doneAt.Some? ==> next.doneAt.Some?) && (row.failedAt.Some? ==> next.failedAt.Some?)
    && row.attempts <= next.attempts && (!row.Unfinished() ==> next.attempts == row.attempts)
    && row.runAt <= next.runAt && (next.runAt == row.runAt || next.runAt <= now + RETRY_BACKOFF)
  }

  ghost predicate RowsStep(s: State, t: State) {
    && s.nextId <= t.nextId
    && (forall id :: id in t.rows && id in s.rows ==> RowStep(s.rows[id], t.rows[id], s.now))
    && (forall id :: id in t.rows && id !in s.rows ==> s.nextId <= id && RowFits(id, t.rows[id], t.nextId))
  }

  lemma OutcomeStepsRows(s: State, idempotent: set<Topic>, a: Act)
    requires RowsInv(s) && Enabled(s, idempotent, a) && (a.Complete? || a.Retry? || a.Fail?)
    ensures RowsStep(s, Apply(s, idempotent, a))
  {
    if a.c in s.claims {
      assert ClaimFits(s, s.claims[a.c]);
    }
  }

  lemma ApplyStepsRows(s: State, idempotent: set<Topic>, a: Act)
    requires RowsInv(s) && Enabled(s, idempotent, a)
    ensures RowsStep(s, Apply(s, idempotent, a))
  {
    if a.Complete? || a.Retry? || a.Fail? {
      OutcomeStepsRows(s, idempotent, a);
    }
  }

  lemma ApplyKeepsFits(s: State, idempotent: set<Topic>, a: Act)
    requires RowsInv(s) && Enabled(s, idempotent, a)
    ensures var t := Apply(s, idempotent, a);
            && (forall id :: id in t.rows ==> RowFits(id, t.rows[id], t.nextId))
            && (forall c :: c in t.claims ==> ClaimFits(t, t.claims[c]))
  {
    var t := Apply(s, idempotent, a);
    ApplyStepsRows(s, idempotent, a);
    forall id | id in t.rows
      ensures RowFits(id, t.rows[id], t.nextId)
    {
      if id in s.rows {
        assert RowFits(id, s.rows[id], s.nextId);
      }
    }
    forall c | c in t.claims
      ensures ClaimFits(t, t.claims[c])
    {
      if c in s.claims {
        StepKeepsClaimFits(s, t, s.claims[c], t.claims[c]);
      }
    }
  }

  lemma StepKeepsClaimFits(s: State, t: State, claim: Claim, next: Claim)
    requires ClaimFits(s, claim) && RowsStep(s, t) && s.now <= t.now && next == claim.(phase := next.phase)
    ensures ClaimFits(t, next)
  {
  }

  lemma ApplyKeepsRowsInv(s: State, idempotent: set<Topic>, a: Act)
    requires RowsInv(s) && Enabled(s, idempotent, a)
    ensures RowsInv(Apply(s, idempotent, a))
  {
    ApplyKeepsOnePending(s, idempotent, a);
    ApplyKeepsFits(s, idempotent, a);
  }

  // ── Effects: the mark commits with the writes ─────────────────────────────────────────────────

  ghost predicate ClaimEffect(s: State, idempotent: set<Topic>, c: Claim) {
    c.event.Some? && c.topic in idempotent ==>
      && (c.phase == Open(true) ==> (c.topic, c.event.value) !in s.consumed)
      && (c.phase == Open(false) || c.phase == Ran ==> (c.topic, c.event.value) in s.consumed)
  }

  ghost predicate OneWriter(s: State, idempotent: set<Topic>) {
    forall i, j, d ::
      (i in s.claims && j in s.claims && s.claims[i].Writing(idempotent, d) && s.claims[j].Writing(idempotent, d))
      ==> i == j
  }

  ghost predicate EffectsInv(s: State, idempotent: set<Topic>) {
    && (forall d: Delivery :: d.0 in idempotent ==> s.effects[d] == if d in s.consumed then 1 else 0)
    && (forall c :: c in s.claims ==> ClaimEffect(s, idempotent, s.claims[c]))
    && OneWriter(s, idempotent)
  }

  lemma CommitKeepsEffectsInv(s: State, idempotent: set<Topic>, c: nat)
    requires EffectsInv(s, idempotent) && Enabled(s, idempotent, CommitHandler(c))
    ensures EffectsInv(Apply(s, idempotent, CommitHandler(c)), idempotent)
  {
    var t := Apply(s, idempotent, CommitHandler(c));
    var claim := s.claims[c];
    assert ClaimEffect(s, idempotent, claim);
    forall j | j in t.claims
      ensures ClaimEffect(t, idempotent, t.claims[j])
    {
      if j != c {
        assert ClaimEffect(s, idempotent, s.claims[j]);
        if claim.event.Some? && claim.Writing(idempotent, (claim.topic, claim.event.value)) {
          assert !s.claims[j].Writing(idempotent, (claim.topic, claim.event.value));
        }
      }
    }
  }

  lemma ApplyKeepsEffectsInv(s: State, idempotent: set<Topic>, a: Act)
    requires EffectsInv(s, idempotent) && Enabled(s, idempotent, a)
    ensures EffectsInv(Apply(s, idempotent, a), idempotent)
  {
    var t := Apply(s, idempotent, a);
    match a
    case CommitHandler(c) => CommitKeepsEffectsInv(s, idempotent, c);
    case StartHandler(c) =>
      forall j | j in t.claims
        ensures ClaimEffect(t, idempotent, t.claims[j])
      {
        assert j != c ==> ClaimEffect(s, idempotent, s.claims[j]);
      }
      assert forall j, d :: j in s.claims && s.claims[j].Writing(idempotent, d) ==> !s.claims[c].Marks(idempotent, d);
    case _ =>
      forall j | j in t.claims
        ensures ClaimEffect(t, idempotent, t.claims[j])
      {
        assert j in s.claims ==> ClaimEffect(s, idempotent, s.claims[j]);
      }
  }

  // ── Custody: a task leaves the table only as a consumed receipt ───────────────────────────────

  ghost predicate Held(s: State, d: Delivery) {
    exists id :: id in s.rows && s.rows[id].Carries(d)
  }

  /** The bookkeeping of one delivery: who holds its task, and what its receipt proves. */
  ghost predicate Custody(s: State, idempotent: set<Topic>, d: Delivery) {
    && (forall id :: id in s.rows && s.rows[id].Carries(d) ==>
          s.enqueued[d] > 0 && (s.rows[id].doneAt.Some? && d.0 in idempotent ==> d in s.consumed))
    && (d.0 in idempotent && s.enqueued[d] > 0 ==> Held(s, d) || d in s.consumed)
    && (s.enqueued[d] <= 1 ==>
          forall i, j :: i in s.rows && j in s.rows && s.rows[i].Carries(d) && s.rows[j].Carries(d) ==> i == j)
    && (d in s.consumed ==> s.enqueued[d] > 0)
    && (forall c :: c in s.claims && s.claims[c].Delivers(d) ==> s.enqueued[d] > 0)
  }

  ghost predicate CustodyInv(s: State, idempotent: set<Topic>) {
    forall d :: Custody(s, idempotent, d)
  }

  lemma RowKeepsCustody(s: State, t: State, idempotent: set<Topic>, d: Delivery, id: Id)
    requires Custody(s, idempotent, d) && t.enqueued == s.enqueued && t.consumed == s.consumed
    requires id in s.rows && id in t.rows && t.rows == s.rows[id := t.rows[id]]
    requires t.rows[id].topic == s.rows[id].topic && t.rows[id].event == s.rows[id].event
    requires s.rows[id].doneAt.None? && t.rows[id].Carries(d) && d.0 in idempotent ==>
               t.rows[id].doneAt.None? || d in s.consumed
    requires forall c :: c in t.claims && t.claims[c].Delivers(d) ==> s.enqueued[d] > 0
    ensures Custody(t, idempotent, d)
  {
    assert forall i :: i in s.rows ==> (t.rows[i].Carries(d) <==> s.rows[i].Carries(d));
    if Held(s, d) {
      var i :| i in s.rows && s.rows[i].Carries(d);
      assert t.rows[i].Carries(d);
    }
  }

  lemma AddKeepsCustody(s: State, t: State, idempotent: set<Topic>, d: Delivery)
    requires RowsInv(s) && Custody(s, idempotent, d) && t.consumed == s.consumed && t.claims == s.claims
    requires s.nextId in t.rows && t.rows == s.rows[s.nextId := t.rows[s.nextId]] && t.rows[s.nextId].doneAt.None?
    requires t.enqueued[d] == s.enqueued[d] + if t.rows[s.nextId].Carries(d) then 1 else 0
    ensures Custody(t, idempotent, d)
  {
    assert s.nextId !in s.rows;
    if Held(s, d) {
      var i :| i in s.rows && s.rows[i].Carries(d);
      assert t.rows[i].Carries(d);
    }
    if t.rows[s.nextId].Carries(d) {
      assert Held(t, d);
    }
  }

  lemma PurgeKeepsCustody(s: State, idempotent: set<Topic>, retention: nat, d: Delivery)
    requires Custody(s, idempotent, d)
    ensures Custody(Apply(s, idempotent, Purge(retention)), idempotent, d)
  {
    var t := Apply(s, idempotent, Purge(retention));
    if Held(s, d) {
      var id :| id in s.rows && s.rows[id].Carries(d);
      assert id in t.rows || s.rows[id].doneAt.Some?;
    }
  }

  lemma CompleteKeepsCustody(s: State, idempotent: set<Topic>, c: nat, d: Delivery)
    requires RowsInv(s) && EffectsInv(s, idempotent) && Custody(s, idempotent, d)
    requires Enabled(s, idempotent, Complete(c))
    ensures Custody(Apply(s, idempotent, Complete(c)), idempotent, d)
  {
    var claim := s.claims[c];
    assert ClaimFits(s, claim) && ClaimEffect(s, idempotent, claim);
    var marked := s.(rows := MarkDone(s.rows, claim.task, s.now), claims := s.claims - {c});
    if claim.task in s.rows {
      RowKeepsCustody(s, marked, idempotent, d, claim.task);
    } else {
      assert marked.rows == s.rows;
    }
    if Recurs(claim) && !HasPending(marked.rows, claim.topic) {
      AddKeepsCustody(marked, Apply(s, idempotent, Complete(c)), idempotent, d) by {
        ApplyKeepsRowsInv(s, idempotent, Crash(c));
        MarkKeepsRowsInv(Apply(s, idempotent, Crash(c)), claim.task);
      }
    }
  }

  lemma MarkKeepsRowsInv(s: State, id: Id)
    requires RowsInv(s)
    ensures RowsInv(s.(rows := MarkDone(s.rows, id, s.now)))
  {
    assert NoNewPending(s.rows, MarkDone(s.rows, id, s.now));
  }

  /** Time, crashes and the handler's own transaction leave the table alone. */
  lemma HandlerKeepsCustody(s: State, idempotent: set<Topic>, a: Act, d: Delivery)
    requires Custody(s, idempotent, d) && Enabled(s, idempotent, a)
    requires a.Elapse? || a.StartHandler? || a.CommitHandler? || a.RaiseHandler? || a.Crash?
    ensures Custody(Apply(s, idempotent, a), idempotent, d)
  {
    var t := Apply(s, idempotent, a);
    assert t.rows == s.rows && t.enqueued == s.enqueued;
    assert forall c :: c in t.claims && t.claims[c].Delivers(d) ==> s.claims[c].Delivers(d);
    assert Held(s, d) ==> Held(t, d);
  }

  lemma OutcomeKeepsCustody(s: State, idempotent: set<Topic>, a: Act, d: Delivery)
    requires Custody(s, idempotent, d) && Enabled(s, idempotent, a)
    requires a.Retry? || a.Fail?
    ensures Custody(Apply(s, idempotent, a), idempotent, d)
  {
    var t := Apply(s, idempotent, a);
    if s.claims[a.c].task in s.rows {
      RowKeepsCustody(s, t, idempotent, d, s.claims[a.c].task);
    } else {
      assert t.rows == s.rows;
      assert Held(s, d) ==> Held(t, d);
    }
  }

  lemma ApplyKeepsCustody(s: State, idempotent: set<Topic>, a: Act, d: Delivery)
    requires RowsInv(s) && EffectsInv(s, idempotent) && Custody(s, idempotent, d) && Enabled(s, idempotent, a)
    ensures Custody(Apply(s, idempotent, a), idempotent, d)
  {
    match a
    case Enqueue(topic, event, maxAttempts) => AddKeepsCustody(s, Apply(s, idempotent, a), idempotent, d);
    case EnsureScheduled(topic, every) =>
      if !HasPending(s.rows, topic) {
        AddKeepsCustody(s, Apply(s, idempotent, a), idempotent, d);
      }
    case Purge(retention) => PurgeKeepsCustody(s, idempotent, retention, d);
    case Complete(c) => CompleteKeepsCustody(s, idempotent, c, d);
    case TakeTask(c, id) =>
      var t := Apply(s, idempotent, a);
      assert t.claims[c].Delivers(d) ==> s.rows[id].Carries(d);
      RowKeepsCustody(s, t, idempotent, d, id);
    case Retry(_) => OutcomeKeepsCustody(s, idempotent, a, d);
    case Fail(_) => OutcomeKeepsCustody(s, idempotent, a, d);
    case _ => HandlerKeepsCustody(s, idempotent, a, d);
  }

  ghost predicate Inv(s: State, idempotent: set<Topic>) {
    RowsInv(s) && EffectsInv(s, idempotent) && CustodyInv(s, idempotent)
  }

  lemma ApplyKeepsInv(s: State, idempotent: set<Topic>, a: Act)
    requires Inv(s, idempotent) && Enabled(s, idempotent, a)
    ensures Inv(Apply(s, idempotent, a), idempotent)
  {
    ApplyKeepsRowsInv(s, idempotent, a);
    ApplyKeepsEffectsInv(s, idempotent, a);
    forall d ensures Custody(Apply(s, idempotent, a), idempotent, d) {
      ApplyKeepsCustody(s, idempotent, a, d);
    }
  }

  lemma {:induction false} RunKeepsInv(s: State, idempotent: set<Topic>, acts: seq<Act>)
    requires Inv(s, idempotent) && IsRun(s, idempotent, acts)
    ensures Inv(After(s, idempotent, acts), idempotent)
    decreases |acts|
  {
    if acts != [] {
      ApplyKeepsInv(s, idempotent, acts[0]);
      RunKeepsInv(Apply(s, idempotent, acts[0]), idempotent, acts[1..]);
    }
  }
}
