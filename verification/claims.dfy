/** What the queue promises of a claim: on every run, on runs whose outcomes arrive within the
    visibility window, and what is lost when they do not. */
module Claims {
  import opened Queue

  lemma InitInv(now: nat, idempotent: set<Topic>)
    ensures Inv(Init(now), idempotent)
  {
  }

  // ── On every run ──────────────────────────────────────────────────────────────────────────────

  /** An idempotent consumer's writes commit at most once per delivery, through retries, crashes,
      expired claims and workers running the same task at once; and a done row is proof that they
      committed exactly once. */
  lemma EffectCommitsAtMostOnce(now: nat, idempotent: set<Topic>, acts: seq<Act>)
    requires IsRun(Init(now), idempotent, acts)
    ensures var s := After(Init(now), idempotent, acts);
            && (forall d: Delivery :: d.0 in idempotent ==> s.effects[d] <= 1)
            && (forall id, d :: id in s.rows && s.rows[id].Carries(d) && s.rows[id].doneAt.Some? && d.0 in idempotent
                  ==> s.effects[d] == 1)
  {
    InitInv(now, idempotent);
    RunKeepsInv(Init(now), idempotent, acts);
    var s := After(Init(now), idempotent, acts);
    forall id, d: Delivery | id in s.rows && s.rows[id].Carries(d) && s.rows[id].doneAt.Some? && d.0 in idempotent
      ensures s.effects[d] == 1
    {
      assert Custody(s, idempotent, d);
    }
  }

  /** A task is never lost: whatever was enqueued for an idempotent consumer is in the table, or its
      writes have committed. */
  lemma TaskHeldUntilConsumed(now: nat, idempotent: set<Topic>, acts: seq<Act>, d: Delivery)
    requires IsRun(Init(now), idempotent, acts) && d.0 in idempotent
    requires After(Init(now), idempotent, acts).enqueued[d] > 0
    ensures var s := After(Init(now), idempotent, acts); Held(s, d) || s.effects[d] == 1
  {
    InitInv(now, idempotent);
    RunKeepsInv(Init(now), idempotent, acts);
    assert Custody(After(Init(now), idempotent, acts), idempotent, d);
  }

  ghost predicate Frozen(s: State, id: Id, attempts: nat) {
    id < s.nextId && (id in s.rows ==> !s.rows[id].Unfinished() && s.rows[id].attempts == attempts)
  }

  /** A done or parked row is never claimed again, not even after a stale worker writes to it. */
  lemma {:induction false} FinishedIsNeverClaimed(
    s: State, idempotent: set<Topic>, acts: seq<Act>, id: Id, attempts: nat)
    requires RowsInv(s) && IsRun(s, idempotent, acts) && Frozen(s, id, attempts)
    ensures Frozen(After(s, idempotent, acts), id, attempts)
    ensures forall a :: a in acts && a.TakeTask? ==> a.id != id
    decreases |acts|
  {
    if acts != [] {
      ApplyKeepsRowsInv(s, idempotent, acts[0]);
      ApplyStepsRows(s, idempotent, acts[0]);
      assert forall a :: a in acts ==> a == acts[0] || a in acts[1..];
      FinishedIsNeverClaimed(Apply(s, idempotent, acts[0]), idempotent, acts[1..], id, attempts);
    }
  }

  // ── What is owed can still take effect ────────────────────────────────────────────────────────

  lemma {:induction false} Unused(keys: set<nat>) returns (above: nat)
    ensures forall k :: k in keys ==> k < above
  {
    if keys == {} {
      above := 0;
    } else {
      var k :| k in keys;
      var rest := Unused(keys - {k});
      assert forall x :: x in keys ==> x == k || x in keys - {k};
      above := if rest <= k then k + 1 else rest;
    }
  }

  lemma RunCons(s: State, idempotent: set<Topic>, a: Act, rest: seq<Act>)
    requires Enabled(s, idempotent, a)
    ensures IsRun(s, idempotent, [a] + rest) <==> IsRun(Apply(s, idempotent, a), idempotent, rest)
    ensures After(s, idempotent, [a] + rest) == After(Apply(s, idempotent, a), idempotent, rest)
  {
    assert ([a] + rest)[1..] == rest;
  }

  lemma OneAct(s: State, idempotent: set<Topic>, a: Act)
    requires Enabled(s, idempotent, a)
    ensures IsRun(s, idempotent, [a]) && After(s, idempotent, [a]) == Apply(s, idempotent, a)
  {
    RunCons(s, idempotent, a, []);
    assert [a] + [] == [a];
  }

  /** One attempt at a task nobody is writing: wait until it is claimable, claim, run, commit. */
  lemma AttemptCommits(s: State, idempotent: set<Topic>, id: Id, d: Delivery) returns (acts: seq<Act>)
    requires id in s.rows && s.rows[id].topic == d.0 && s.rows[id].event == Some(d.1)
    requires s.rows[id].doneAt.None? && s.rows[id].failedAt.None?
    requires d.0 in idempotent && d !in s.consumed
    requires forall j :: j in s.claims ==> !s.claims[j].Writing(idempotent, d)
    ensures IsRun(s, idempotent, acts) && forall a :: a in acts ==> !a.Enqueue?
    ensures After(s, idempotent, acts).effects == s.effects + multiset{d}
  {
    var c := Unused(s.claims.Keys);
    var row := s.rows[id];
    var wait := Elapse(row.runAt + (if row.lockedAt.Some? then row.lockedAt.value + VISIBILITY_TIMEOUT + 1 else 0));
    var s1 := Apply(s, idempotent, wait);
    var s2 := Apply(s1, idempotent, TakeTask(c, id));
    var s3 := Apply(s2, idempotent, StartHandler(c));
    OneAct(s3, idempotent, CommitHandler(c));
    RunCons(s2, idempotent, StartHandler(c), [CommitHandler(c)]);
    RunCons(s1, idempotent, TakeTask(c, id), [StartHandler(c)] + [CommitHandler(c)]);
    RunCons(s, idempotent, wait, [TakeTask(c, id)] + ([StartHandler(c)] + [CommitHandler(c)]));
    acts := [wait] + ([TakeTask(c, id)] + ([StartHandler(c)] + [CommitHandler(c)]));
  }

  /** From every state the invariants allow: an unfinished task of an idempotent consumer can still commit
      its writes, once. */
  lemma UnfinishedCanCommit(s: State, idempotent: set<Topic>, id: Id, d: Delivery) returns (acts: seq<Act>)
    requires Inv(s, idempotent) && d.0 in idempotent
    requires id in s.rows && s.rows[id].topic == d.0 && s.rows[id].event == Some(d.1)
    requires s.rows[id].doneAt.None? && s.rows[id].failedAt.None?
    ensures IsRun(s, idempotent, acts) && forall a :: a in acts ==> !a.Enqueue?
    ensures After(s, idempotent, acts).effects[d] == 1
  {
    if d in s.consumed {
      acts := [];
    } else if j :| j in s.claims && s.claims[j].Writing(idempotent, d) {
      acts := [CommitHandler(j)];
      OneAct(s, idempotent, CommitHandler(j));
    } else {
      acts := AttemptCommits(s, idempotent, id, d);
    }
  }

  /** So on every run: whatever workers did and wherever they died, an unfinished task's writes are still
      to be had. */
  lemma OwedCanTakeEffect(now: nat, idempotent: set<Topic>, before: seq<Act>, id: Id, d: Delivery)
    returns (acts: seq<Act>)
    requires IsRun(Init(now), idempotent, before) && d.0 in idempotent
    requires var s := After(Init(now), idempotent, before);
             && id in s.rows && s.rows[id].topic == d.0 && s.rows[id].event == Some(d.1)
             && s.rows[id].doneAt.None? && s.rows[id].failedAt.None?
    ensures var s := After(Init(now), idempotent, before);
            IsRun(s, idempotent, acts) && After(s, idempotent, acts).effects[d] == 1
  {
    InitInv(now, idempotent);
    RunKeepsInv(Init(now), idempotent, before);
    acts := UnfinishedCanCommit(After(Init(now), idempotent, before), idempotent, id, d);
  }

  // ── When every outcome is written within the visibility window ────────────────────────────────

  /** Time does not outrun any claim by more than `hold`, and workers die only where `crashes` says so. */
  ghost predicate OnTime(s: State, a: Act, hold: nat, crashes: bool) {
    match a
    case Elapse(delay) => forall c :: c in s.claims ==> s.now + delay <= s.claims[c].at + hold
    case Crash(_) => crashes
    case _ => true
  }

  /** The runs in which each live worker writes its outcome within `hold` of its claim. */
  ghost predicate IsTimelyRun(s: State, idempotent: set<Topic>, hold: nat, crashes: bool, acts: seq<Act>)
    decreases |acts|
  {
    acts == []
    || (Enabled(s, idempotent, acts[0]) && OnTime(s, acts[0], hold, crashes)
        && IsTimelyRun(Apply(s, idempotent, acts[0]), idempotent, hold, crashes, acts[1..]))
  }

  /** The attempts a row is allowed; a task always runs once, whatever its `max_attempts`. */
  function Allowed(row: Row): nat { if row.maxAttempts == 0 then 1 else row.maxAttempts }

  ghost predicate HoldsRow(s: State, claim: Claim) {
    && claim.task in s.rows
    && var row := s.rows[claim.task];
       row.lockedAt == Some(claim.at) && row.attempts == claim.attempts && row.Unfinished()
       && s.now <= claim.at + VISIBILITY_TIMEOUT
  }

  ghost predicate IsHeld(s: State, id: Id) {
    exists c :: c in s.claims && s.claims[c].task == id
  }

  ghost predicate Exclusive(s: State) {
    forall i, j :: i in s.claims && j in s.claims && s.claims[i].task == s.claims[j].task ==> i == j
  }

  ghost predicate RowCounts(s: State, id: Id, row: Row) {
    && row.attempts <= Allowed(row)
    && (row.lockedAt.Some? ==> IsHeld(s, id))
    && (row.Unfinished() && row.lockedAt.None? ==> row.attempts < Allowed(row))
  }

  /** The attempts of a row are accounted for only while no claim vanishes with its worker. */
  ghost predicate TimelyInv(s: State, counts: bool) {
    && RowsInv(s)
    && (forall c :: c in s.claims ==> HoldsRow(s, s.claims[c]))
    && Exclusive(s)
    && (counts ==> forall id :: id in s.rows ==> RowCounts(s, id, s.rows[id]))
  }

  lemma TakeKeepsTimely(s: State, counts: bool, idempotent: set<Topic>, c: nat, id: Id)
    requires TimelyInv(s, counts) && Enabled(s, idempotent, TakeTask(c, id))
    ensures TimelyInv(Apply(s, idempotent, TakeTask(c, id)), counts)
  {
    var t := Apply(s, idempotent, TakeTask(c, id));
    ApplyKeepsRowsInv(s, idempotent, TakeTask(c, id));
    forall j | j in s.claims ensures s.claims[j].task != id {
      assert HoldsRow(s, s.claims[j]);
    }
    assert t.claims[c].task == id;
    forall k | counts && k in t.rows
      ensures RowCounts(t, k, t.rows[k])
    {
      assert k in s.rows && RowCounts(s, k, s.rows[k]);
      if k != id {
        if s.rows[k].lockedAt.Some? {
          var j :| j in s.claims && s.claims[j].task == k;
          assert t.claims[j].task == k;
        }
      }
    }
  }

  lemma CountsKept(s: State, t: State, id: Id)
    requires id in s.rows && id in t.rows && RowCounts(s, id, s.rows[id])
    requires t.rows[id] == s.rows[id]
    requires forall c :: c in s.claims && s.claims[c].task == id ==> c in t.claims && t.claims[c].task == id
    ensures RowCounts(t, id, t.rows[id])
  {
    if s.rows[id].lockedAt.Some? {
      var c :| c in s.claims && s.claims[c].task == id;
      assert t.claims[c].task == id;
    }
  }

  /** The rows an outcome leaves: its own marked, every other as it was, and at most one new. */
  lemma OutcomeRows(s: State, counts: bool, idempotent: set<Topic>, a: Act)
    requires TimelyInv(s, counts) && Enabled(s, idempotent, a) && (a.Complete? || a.Retry? || a.Fail?)
    ensures var t := Apply(s, idempotent, a);
            var task := s.claims[a.c].task;
            && t.now == s.now && t.claims == s.claims - {a.c} && task in s.rows && task in t.rows
            && (counts ==> RowCounts(t, task, t.rows[task]))
            && (forall k :: k in s.rows && k != task ==> k in t.rows && t.rows[k] == s.rows[k])
            && (counts ==> forall k :: k in t.rows && k !in s.rows ==> RowCounts(t, k, t.rows[k]))
  {
    var claim := s.claims[a.c];
    assert HoldsRow(s, claim) && ClaimFits(s, claim);
    assert counts ==> RowCounts(s, claim.task, s.rows[claim.task]);
    assert claim.task < s.nextId;
    if a.Complete? && Recurs(claim) {
      assert s.rows[claim.task].PendingRecurring(claim.topic);
      assert !HasPending(MarkDone(s.rows, claim.task, s.now), claim.topic);
    }
  }

  /** Writing an outcome settles the one row its claim holds. */
  lemma OutcomeKeepsTimely(s: State, counts: bool, idempotent: set<Topic>, a: Act)
    requires TimelyInv(s, counts) && Enabled(s, idempotent, a) && (a.Complete? || a.Retry? || a.Fail?)
    ensures TimelyInv(Apply(s, idempotent, a), counts)
  {
    var t := Apply(s, idempotent, a);
    var task := s.claims[a.c].task;
    ApplyKeepsRowsInv(s, idempotent, a);
    OutcomeRows(s, counts, idempotent, a);
    forall j | j in t.claims ensures HoldsRow(t, t.claims[j]) {
      assert HoldsRow(s, s.claims[j]) && s.claims[j].task != task;
    }
    forall k | counts && k in t.rows ensures RowCounts(t, k, t.rows[k]) {
      if k in s.rows && k != task {
        CountsKept(s, t, k);
      }
    }
  }

  lemma PurgeKeepsTimely(s: State, counts: bool, idempotent: set<Topic>, retention: nat)
    requires TimelyInv(s, counts)
    ensures TimelyInv(Apply(s, idempotent, Purge(retention)), counts)
  {
    var t := Apply(s, idempotent, Purge(retention));
    ApplyKeepsRowsInv(s, idempotent, Purge(retention));
    forall c | c in t.claims ensures HoldsRow(t, t.claims[c]) {
      assert HoldsRow(s, s.claims[c]);
    }
    forall k | counts && k in t.rows ensures RowCounts(t, k, t.rows[k]) {
      CountsKept(s, t, k);
    }
  }

  lemma InsertKeepsTimely(s: State, counts: bool, idempotent: set<Topic>, a: Act)
    requires TimelyInv(s, counts) && (a.Enqueue? || a.EnsureScheduled?)
    ensures TimelyInv(Apply(s, idempotent, a), counts)
  {
    var t := Apply(s, idempotent, a);
    ApplyKeepsRowsInv(s, idempotent, a);
    forall c | c in t.claims ensures HoldsRow(t, t.claims[c]) {
      assert HoldsRow(s, s.claims[c]) && ClaimFits(s, s.claims[c]);
    }
    forall k | counts && k in t.rows ensures RowCounts(t, k, t.rows[k]) {
      if k in s.rows {
        CountsKept(s, t, k);
      }
    }
  }

  lemma SameRowsKeepTimely(s: State, t: State, counts: bool)
    requires TimelyInv(s, counts) && RowsInv(t) && t.rows == s.rows && t.claims.Keys == s.claims.Keys
    requires forall c :: c in s.claims ==>
               && t.claims[c] == s.claims[c].(phase := t.claims[c].phase)
               && t.now <= s.claims[c].at + VISIBILITY_TIMEOUT
    ensures TimelyInv(t, counts)
  {
    forall c | c in t.claims ensures HoldsRow(t, t.claims[c]) {
      assert HoldsRow(s, s.claims[c]);
    }
    forall k | counts && k in t.rows ensures RowCounts(t, k, t.rows[k]) {
      CountsKept(s, t, k);
    }
  }

  lemma HandlerKeepsTimely(s: State, counts: bool, idempotent: set<Topic>, a: Act)
    requires TimelyInv(s, counts) && Enabled(s, idempotent, a) && OnTime(s, a, VISIBILITY_TIMEOUT, false)
    requires a.Elapse? || a.StartHandler? || a.CommitHandler? || a.RaiseHandler?
    ensures TimelyInv(Apply(s, idempotent, a), counts)
  {
    var t := Apply(s, idempotent, a);
    ApplyKeepsRowsInv(s, idempotent, a);
    forall c | c in s.claims
      ensures t.claims[c] == s.claims[c].(phase := t.claims[c].phase) && t.now <= s.claims[c].at + VISIBILITY_TIMEOUT
    {
      assert HoldsRow(s, s.claims[c]);
    }
    SameRowsKeepTimely(s, t, counts);
  }

  lemma CrashKeepsTimely(s: State, idempotent: set<Topic>, c: nat)
    requires TimelyInv(s, false) && Enabled(s, idempotent, Crash(c))
    ensures TimelyInv(Apply(s, idempotent, Crash(c)), false)
  {
    var t := Apply(s, idempotent, Crash(c));
    ApplyKeepsRowsInv(s, idempotent, Crash(c));
    forall j | j in t.claims ensures HoldsRow(t, t.claims[j]) {
      assert HoldsRow(s, s.claims[j]);
    }
  }

  lemma StepKeepsTimely(s: State, idempotent: set<Topic>, hold: nat, crashes: bool, a: Act)
    requires TimelyInv(s, !crashes) && hold <= VISIBILITY_TIMEOUT
    requires Enabled(s, idempotent, a) && OnTime(s, a, hold, crashes)
    ensures TimelyInv(Apply(s, idempotent, a), !crashes)
  {
    match a
    case TakeTask(c, id) => TakeKeepsTimely(s, !crashes, idempotent, c, id);
    case Complete(_) => OutcomeKeepsTimely(s, !crashes, idempotent, a);
    case Retry(_) => OutcomeKeepsTimely(s, !crashes, idempotent, a);
    case Fail(_) => OutcomeKeepsTimely(s, !crashes, idempotent, a);
    case Purge(retention) => PurgeKeepsTimely(s, !crashes, idempotent, retention);
    case Enqueue(_, _, _) => InsertKeepsTimely(s, !crashes, idempotent, a);
    case EnsureScheduled(_, _) => InsertKeepsTimely(s, !crashes, idempotent, a);
    case Crash(c) => CrashKeepsTimely(s, idempotent, c);
    case _ => HandlerKeepsTimely(s, !crashes, idempotent, a);
  }

  lemma {:induction false} TimelyRunKeepsInv(s: State, idempotent: set<Topic>, hold: nat, crashes: bool, acts: seq<Act>)
    requires TimelyInv(s, !crashes) && hold <= VISIBILITY_TIMEOUT
    requires IsTimelyRun(s, idempotent, hold, crashes, acts)
    ensures TimelyInv(After(s, idempotent, acts), !crashes)
    decreases |acts|
  {
    if acts != [] {
      StepKeepsTimely(s, idempotent, hold, crashes, acts[0]);
      TimelyRunKeepsInv(Apply(s, idempotent, acts[0]), idempotent, hold, crashes, acts[1..]);
    }
  }

  ghost predicate AttemptsAllowed(s: State) {
    forall id :: id in s.rows ==> s.rows[id].attempts <= Allowed(s.rows[id])
  }

  /** When each live worker writes its outcome within the window, no task is ever held by two workers;
      when besides no worker dies, no row is attempted more often than it is allowed. */
  lemma TimelyClaimsAreExclusive(now: nat, idempotent: set<Topic>, hold: nat, crashes: bool, acts: seq<Act>)
    requires hold <= VISIBILITY_TIMEOUT && IsTimelyRun(Init(now), idempotent, hold, crashes, acts)
    ensures Exclusive(After(Init(now), idempotent, acts))
    ensures !crashes ==> AttemptsAllowed(After(Init(now), idempotent, acts))
  {
    TimelyRunKeepsInv(Init(now), idempotent, hold, crashes, acts);
    var s := After(Init(now), idempotent, acts);
    if !crashes {
      forall id | id in s.rows ensures s.rows[id].attempts <= Allowed(s.rows[id]) {
        assert RowCounts(s, id, s.rows[id]);
      }
    }
  }

  // ── When an outcome is late ───────────────────────────────────────────────────────────────────

  /** One worker one second past the window: a second worker takes the same row, and a row allowed one
      attempt is on its second. */
  function LateActs(topic: Topic): seq<Act> {
    [Enqueue(topic, None, 1)] + ([TakeTask(0, 0)] + ([Elapse(VISIBILITY_TIMEOUT + 1)] + [TakeTask(1, 0)]))
  }

  lemma TimelyCons(s: State, idempotent: set<Topic>, hold: nat, crashes: bool, a: Act, rest: seq<Act>)
    requires Enabled(s, idempotent, a) && OnTime(s, a, hold, crashes)
    ensures IsTimelyRun(s, idempotent, hold, crashes, [a] + rest)
       <==> IsTimelyRun(Apply(s, idempotent, a), idempotent, hold, crashes, rest)
    ensures After(s, idempotent, [a] + rest) == After(Apply(s, idempotent, a), idempotent, rest)
  {
    assert ([a] + rest)[1..] == rest;
  }

  lemma LateOutcomeDoublesTheHolder(now: nat, idempotent: set<Topic>, topic: Topic, hold: nat, crashes: bool)
    requires hold > VISIBILITY_TIMEOUT
    ensures IsTimelyRun(Init(now), idempotent, hold, crashes, LateActs(topic))
    ensures !Exclusive(After(Init(now), idempotent, LateActs(topic)))
    ensures !AttemptsAllowed(After(Init(now), idempotent, LateActs(topic)))
  {
    var enqueue, first, second := Enqueue(topic, None, 1), TakeTask(0, 0), TakeTask(1, 0);
    var wait := Elapse(VISIBILITY_TIMEOUT + 1);
    var s1 := Apply(Init(now), idempotent, enqueue);
    var s2 := Apply(s1, idempotent, first);
    var s3 := Apply(s2, idempotent, wait);
    var s4 := Apply(s3, idempotent, second);
    TimelyCons(s3, idempotent, hold, crashes, second, []);
    assert [second] + [] == [second];
    TimelyCons(s2, idempotent, hold, crashes, wait, [second]);
    TimelyCons(s1, idempotent, hold, crashes, first, [wait] + [second]);
    TimelyCons(Init(now), idempotent, hold, crashes, enqueue, [first] + ([wait] + [second]));
    assert s4.claims[0].task == s4.claims[1].task == 0;
    assert s4.rows[0].attempts == 2 && Allowed(s4.rows[0]) == 1;
  }

  // ── When a worker dies holding its claim ──────────────────────────────────────────────────────

  /** A task whose worker dies before writing an outcome is attempted again without end, however quick
      the other workers are: the bound on attempts is checked only by the outcome that never came. */
  lemma {:induction false} CrashesAreRetriedForever(now: nat, idempotent: set<Topic>, topic: Topic, hold: nat, n: nat)
    returns (acts: seq<Act>)
    ensures IsTimelyRun(Init(now), idempotent, hold, true, acts)
    ensures var s := After(Init(now), idempotent, acts);
            && 0 in s.rows && s.rows[0].attempts == n && s.rows[0].maxAttempts == 5
            && s.rows[0].Ready(s.now) && s.claims == map[]
  {
    if n == 0 {
      acts := [Enqueue(topic, None, 5)];
      TimelyCons(Init(now), idempotent, hold, true, acts[0], []);
      assert acts == [acts[0]] + [];
    } else {
      var before := CrashesAreRetriedForever(now, idempotent, topic, hold, n - 1);
      var s := After(Init(now), idempotent, before);
      var take, crash, wait := TakeTask(0, 0), Crash(0), Elapse(VISIBILITY_TIMEOUT + 1);
      var s1 := Apply(s, idempotent, take);
      var s2 := Apply(s1, idempotent, crash);
      TimelyCons(s2, idempotent, hold, true, wait, []);
      assert [wait] + [] == [wait];
      TimelyCons(s1, idempotent, hold, true, crash, [wait]);
      TimelyCons(s, idempotent, hold, true, take, [crash] + [wait]);
      TimelyConcat(Init(now), idempotent, hold, true, before, [take] + ([crash] + [wait]));
      acts := before + ([take] + ([crash] + [wait]));
    }
  }

  lemma {:induction false} TimelyConcat(
    s: State, idempotent: set<Topic>, hold: nat, crashes: bool, first: seq<Act>, second: seq<Act>)
    requires IsTimelyRun(s, idempotent, hold, crashes, first)
    requires IsTimelyRun(After(s, idempotent, first), idempotent, hold, crashes, second)
    ensures IsTimelyRun(s, idempotent, hold, crashes, first + second)
    ensures After(s, idempotent, first + second) == After(After(s, idempotent, first), idempotent, second)
    decreases |first|
  {
    if first == [] {
      assert first + second == second;
    } else {
      TimelyConcat(Apply(s, idempotent, first[0]), idempotent, hold, crashes, first[1..], second);
      assert first + second == [first[0]] + (first[1..] + second);
      TimelyCons(s, idempotent, hold, crashes, first[0], first[1..] + second);
    }
  }

  // ── When the two promises hold, exactly ───────────────────────────────────────────────────────

  /** Over the runs whose live workers write their outcomes within `hold`: no task is ever held by two
      workers if and only if `hold` is within the visibility window, crashes or none. */
  lemma ExclusiveIffTimely(now: nat, idempotent: set<Topic>, topic: Topic, hold: nat, crashes: bool)
    ensures hold <= VISIBILITY_TIMEOUT <==>
      forall acts :: IsTimelyRun(Init(now), idempotent, hold, crashes, acts) ==>
        Exclusive(After(Init(now), idempotent, acts))
  {
    if hold <= VISIBILITY_TIMEOUT {
      forall acts | IsTimelyRun(Init(now), idempotent, hold, crashes, acts)
        ensures Exclusive(After(Init(now), idempotent, acts))
      {
        TimelyClaimsAreExclusive(now, idempotent, hold, crashes, acts);
      }
    } else {
      LateOutcomeDoublesTheHolder(now, idempotent, topic, hold, crashes);
    }
  }

  /** And no row is ever attempted more often than it is allowed if and only if, besides, no worker dies. */
  lemma AttemptsBoundedIffTimelyAndAlive(now: nat, idempotent: set<Topic>, topic: Topic, hold: nat, crashes: bool)
    ensures !crashes && hold <= VISIBILITY_TIMEOUT <==>
      forall acts :: IsTimelyRun(Init(now), idempotent, hold, crashes, acts) ==>
        AttemptsAllowed(After(Init(now), idempotent, acts))
  {
    if hold > VISIBILITY_TIMEOUT {
      LateOutcomeDoublesTheHolder(now, idempotent, topic, hold, crashes);
    } else if crashes {
      var acts := CrashesAreRetriedForever(now, idempotent, topic, hold, 6);
      var s := After(Init(now), idempotent, acts);
      assert s.rows[0].attempts == 6 && Allowed(s.rows[0]) == 5;
    } else {
      forall acts | IsTimelyRun(Init(now), idempotent, hold, crashes, acts)
        ensures AttemptsAllowed(After(Init(now), idempotent, acts))
      {
        TimelyClaimsAreExclusive(now, idempotent, hold, crashes, acts);
      }
    }
  }
}
