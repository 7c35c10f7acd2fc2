/** The chain of a recurring topic: one pending row at a time, each run due no sooner than its interval
    after the last. Lapsed claims and stale workers included: the partial unique index carries it. */
module Recurring {
  import opened Queue

  /** The topic has a pending row that will plant its successor. */
  ghost predicate Alive(s: State, topic: Topic) {
    exists id :: id in s.rows && s.rows[id].PendingRecurring(topic) && s.rows[id].recurring.value > 0
  }

  /** The step parks the topic's pending row. */
  ghost predicate Parks(s: State, a: Act, topic: Topic) {
    && a.Fail? && a.c in s.claims && s.claims[a.c].task in s.rows
    && s.rows[s.claims[a.c].task].PendingRecurring(topic)
  }

  ghost predicate NeverParks(s: State, idempotent: set<Topic>, acts: seq<Act>, topic: Topic)
    decreases |acts|
  {
    acts == []
    || (!Parks(s, acts[0], topic) && NeverParks(Apply(s, idempotent, acts[0]), idempotent, acts[1..], topic))
  }

  /** Recurring, neither done nor parked. */
  ghost predicate AwaitsRun(s: State, topic: Topic, id: Id) {
    && id in s.rows && s.rows[id].topic == topic && s.rows[id].recurring.Some?
    && s.rows[id].doneAt.None? && s.rows[id].failedAt.None?
  }

  ghost predicate ExactlyOnePending(s: State, topic: Topic) {
    exists id :: AwaitsRun(s, topic, id) && forall j :: AwaitsRun(s, topic, j) ==> j == id
  }

  lemma CompleteKeepsAlive(s: State, idempotent: set<Topic>, c: nat, topic: Topic)
    requires RowsInv(s) && Enabled(s, idempotent, Complete(c)) && Alive(s, topic)
    ensures Alive(Apply(s, idempotent, Complete(c)), topic)
  {
    var t := Apply(s, idempotent, Complete(c));
    var id :| id in s.rows && s.rows[id].PendingRecurring(topic) && s.rows[id].recurring.value > 0;
    var claim := s.claims[c];
    assert ClaimFits(s, claim) && RowFits(id, s.rows[id], s.nextId);
    var marked := MarkDone(s.rows, claim.task, s.now);
    if claim.task == id {
      assert Recurs(claim) && claim.topic == topic;
      assert NoNewPending(s.rows, marked);
      assert !HasPending(marked, topic);
      assert t.rows[s.nextId].PendingRecurring(topic);
    } else {
      assert id in t.rows && t.rows[id] == s.rows[id];
    }
  }

  lemma ApplyKeepsAlive(s: State, idempotent: set<Topic>, a: Act, topic: Topic)
    requires RowsInv(s) && Enabled(s, idempotent, a) && Alive(s, topic) && !Parks(s, a, topic)
    ensures Alive(Apply(s, idempotent, a), topic)
  {
    if a.Complete? {
      CompleteKeepsAlive(s, idempotent, a.c, topic);
    } else {
      var t := Apply(s, idempotent, a);
      var id :| id in s.rows && s.rows[id].PendingRecurring(topic) && s.rows[id].recurring.value > 0;
      assert RowFits(id, s.rows[id], s.nextId);
      assert id in t.rows && t.rows[id].PendingRecurring(topic);
    }
  }

  lemma {:induction false} RunKeepsAlive(s: State, idempotent: set<Topic>, acts: seq<Act>, topic: Topic)
    requires RowsInv(s) && IsRun(s, idempotent, acts) && Alive(s, topic) && NeverParks(s, idempotent, acts, topic)
    ensures RowsInv(After(s, idempotent, acts)) && Alive(After(s, idempotent, acts), topic)
    decreases |acts|
  {
    if acts != [] {
      ApplyKeepsRowsInv(s, idempotent, acts[0]);
      ApplyKeepsAlive(s, idempotent, acts[0], topic);
      RunKeepsAlive(Apply(s, idempotent, acts[0]), idempotent, acts[1..], topic);
    }
  }

  /** Once planted, a recurring topic has exactly one pending row in every reachable state, on every
      run, until that row is parked. */
  lemma ChainNeverBreaksNorForks(s: State, idempotent: set<Topic>, topic: Topic, every: nat, acts: seq<Act>)
    requires RowsInv(s) && !HasPending(s.rows, topic) && every > 0
    requires var planted := Apply(s, idempotent, EnsureScheduled(topic, every));
             IsRun(planted, idempotent, acts) && NeverParks(planted, idempotent, acts, topic)
    ensures var t := After(Apply(s, idempotent, EnsureScheduled(topic, every)), idempotent, acts);
            ExactlyOnePending(t, topic)
  {
    var planted := Apply(s, idempotent, EnsureScheduled(topic, every));
    ApplyKeepsRowsInv(s, idempotent, EnsureScheduled(topic, every));
    assert planted.rows[s.nextId].PendingRecurring(topic);
    RunKeepsAlive(planted, idempotent, acts, topic);
    var t := After(planted, idempotent, acts);
    AliveIsOne(t, topic);
  }

  lemma AliveIsOne(s: State, topic: Topic)
    requires OnePending(s.rows) && Alive(s, topic)
    ensures ExactlyOnePending(s, topic)
  {
    var id :| id in s.rows && s.rows[id].PendingRecurring(topic);
    assert AwaitsRun(s, topic, id) && forall j :: AwaitsRun(s, topic, j) ==> s.rows[j].PendingRecurring(topic);
  }

  // ── Spacing ───────────────────────────────────────────────────────────────────────────────────

  ghost predicate DueFrom(s: State, id: Id, due: nat) {
    id < s.nextId && (id in s.rows ==> due <= s.rows[id].runAt)
  }

  lemma {:induction false} DueNeverMovesEarlier(s: State, idempotent: set<Topic>, acts: seq<Act>, id: Id, due: nat)
    requires RowsInv(s) && IsRun(s, idempotent, acts) && DueFrom(s, id, due)
    ensures DueFrom(After(s, idempotent, acts), id, due) && RowsInv(After(s, idempotent, acts))
    decreases |acts|
  {
    if acts != [] {
      ApplyKeepsRowsInv(s, idempotent, acts[0]);
      ApplyStepsRows(s, idempotent, acts[0]);
      DueNeverMovesEarlier(Apply(s, idempotent, acts[0]), idempotent, acts[1..], id, due);
    }
  }

  /** However a successor's row is later retried, no worker claims it before the interval has passed
      since the completion that planted it. */
  lemma SuccessorWaitsItsInterval(s: State, idempotent: set<Topic>, c: nat, acts: seq<Act>, taker: nat)
    requires RowsInv(s) && Enabled(s, idempotent, Complete(c)) && Recurs(s.claims[c])
    requires var t := Apply(s, idempotent, Complete(c));
             t.nextId > s.nextId && IsRun(t, idempotent, acts)
             && Enabled(After(t, idempotent, acts), idempotent, TakeTask(taker, s.nextId))
    ensures After(Apply(s, idempotent, Complete(c)), idempotent, acts).now >= s.now + s.claims[c].recurring.value
  {
    var t := Apply(s, idempotent, Complete(c));
    ApplyKeepsRowsInv(s, idempotent, Complete(c));
    DueNeverMovesEarlier(t, idempotent, acts, s.nextId, s.now + s.claims[c].recurring.value);
  }
}
