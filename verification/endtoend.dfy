/** The journal, the listeners and the queue together: from a committed fact to its consumers' committed
    writes. */
module EndToEnd {
  import opened Journal
  import Delivery
  import Queue

  datatype State = State(d: Delivery.State, q: Queue.State)

  datatype Act = Deliver(delivery: Delivery.Act) | Work(work: Queue.Act)

  function TaskOf(p: Delivery.Pair): Queue.Delivery { (p.1, p.0) }

  /** The inserts a listener's transaction makes in the queue, in order. */
  ghost function EnqueueAll(q: Queue.State, idempotent: set<Queue.Topic>, pairs: seq<Delivery.Pair>): Queue.State
    decreases |pairs|
  {
    if pairs == [] then q
    else
      var enqueue := Queue.Enqueue(pairs[0].1, Queue.Some(pairs[0].0), 5);
      EnqueueAll(Queue.Apply(q, idempotent, enqueue), idempotent, pairs[1..])
  }

  /** Any step of either machine. One clock drives both; a reaction's task comes from a listener's
      commit alone. */
  ghost predicate Enabled(s: State, g: Limits, wiring: Delivery.Wiring, idempotent: set<Queue.Topic>, a: Act) {
    match a
    case Deliver(delivery) => Delivery.Enabled(s.d, g, wiring, delivery)
    case Work(work) =>
      && Queue.Enabled(s.q, idempotent, work) && !work.Elapse?
      && (work.Enqueue? ==> work.event.None?)
  }

  ghost function Apply(s: State, g: Limits, wiring: Delivery.Wiring, idempotent: set<Queue.Topic>, a: Act): State {
    match a
    case Work(work) => s.(q := Queue.Apply(s.q, idempotent, work))
    case Deliver(delivery) =>
      State(Delivery.Apply(s.d, g, wiring, delivery),
            if delivery.CommitTick? && delivery.i in s.d.ticks
            then EnqueueAll(s.q, idempotent, s.d.ticks[delivery.i].pairs)
            else if delivery.Journal? && delivery.act.Elapse?
            then Queue.Apply(s.q, idempotent, Queue.Elapse(delivery.act.delay))
            else s.q)
  }

  function Init(): State { State(Delivery.Init(), Queue.Init(0)) }

  ghost predicate IsRun(s: State, g: Limits, wiring: Delivery.Wiring, idempotent: set<Queue.Topic>, acts: seq<Act>)
    decreases |acts|
  {
    acts == []
    || (Enabled(s, g, wiring, idempotent, acts[0])
        && IsRun(Apply(s, g, wiring, idempotent, acts[0]), g, wiring, idempotent, acts[1..]))
  }

  ghost function After(
    s: State, g: Limits, wiring: Delivery.Wiring, idempotent: set<Queue.Topic>, acts: seq<Act>): State
    decreases |acts|
  {
    if acts == [] then s
    else After(Apply(s, g, wiring, idempotent, acts[0]), g, wiring, idempotent, acts[1..])
  }

  // ── The two halves agree on what was enqueued ─────────────────────────────────────────────────

  ghost predicate Linked(s: State) {
    forall p: Delivery.Pair :: s.q.enqueued[TaskOf(p)] == multiset(s.d.tasks)[p]
  }

  lemma {:induction false} EnqueueAllCounts(q: Queue.State, idempotent: set<Queue.Topic>, pairs: seq<Delivery.Pair>)
    requires Queue.Inv(q, idempotent)
    ensures Queue.Inv(EnqueueAll(q, idempotent, pairs), idempotent)
    ensures forall p: Delivery.Pair ::
              EnqueueAll(q, idempotent, pairs).enqueued[TaskOf(p)] == q.enqueued[TaskOf(p)] + multiset(pairs)[p]
    decreases |pairs|
  {
    if pairs != [] {
      var act := Queue.Enqueue(pairs[0].1, Queue.Some(pairs[0].0), 5);
      Queue.ApplyKeepsInv(q, idempotent, act);
      EnqueueAllCounts(Queue.Apply(q, idempotent, act), idempotent, pairs[1..]);
      assert pairs == [pairs[0]] + pairs[1..];
      forall p: Delivery.Pair
        ensures Queue.Apply(q, idempotent, act).enqueued[TaskOf(p)]
             == q.enqueued[TaskOf(p)] + multiset([pairs[0]])[p]
      {
        assert TaskOf(p) == TaskOf(pairs[0]) <==> p == pairs[0];
      }
    }
  }

  ghost predicate Inv(s: State, g: Limits, wiring: Delivery.Wiring, idempotent: set<Queue.Topic>) {
    && Delivery.LedgerInv(s.d, g) && Delivery.CursorInv(s.d, g, wiring)
    && Queue.Inv(s.q, idempotent)
    && Linked(s)
  }

  lemma ApplyKeepsInv(s: State, g: Limits, wiring: Delivery.Wiring, idempotent: set<Queue.Topic>, a: Act)
    requires g.Covered() && Inv(s, g, wiring, idempotent) && Enabled(s, g, wiring, idempotent, a)
    ensures Inv(Apply(s, g, wiring, idempotent, a), g, wiring, idempotent)
  {
    match a
    case Work(work) =>
      Queue.ApplyKeepsInv(s.q, idempotent, work);
      assert Queue.Apply(s.q, idempotent, work).enqueued == s.q.enqueued;
    case Deliver(delivery) =>
      Delivery.ApplyKeepsLedgerInv(s.d, g, wiring, delivery);
      if delivery.Journal? {
        Delivery.WritersKeepCursorInv(s.d, g, wiring, delivery.act);
        if delivery.act.Elapse? {
          Queue.ApplyKeepsInv(s.q, idempotent, Queue.Elapse(delivery.act.delay));
        }
      } else {
        Delivery.ListenerKeepsCursorInv(s.d, g, wiring, delivery);
        if delivery.CommitTick? {
          CommitKeepsLinked(s, g, wiring, idempotent, delivery.i);
        }
      }
  }

  lemma CommitKeepsLinked(s: State, g: Limits, wiring: Delivery.Wiring, idempotent: set<Queue.Topic>, i: nat)
    requires Queue.Inv(s.q, idempotent) && Linked(s) && i in s.d.ticks
    ensures var t := Apply(s, g, wiring, idempotent, Deliver(Delivery.CommitTick(i)));
            Queue.Inv(t.q, idempotent) && Linked(t)
  {
    var pairs := s.d.ticks[i].pairs;
    EnqueueAllCounts(s.q, idempotent, pairs);
    assert multiset(s.d.tasks + pairs) == multiset(s.d.tasks) + multiset(pairs);
  }

  lemma {:induction false} RunKeepsInv(
    s: State, g: Limits, wiring: Delivery.Wiring, idempotent: set<Queue.Topic>, acts: seq<Act>)
    requires g.Covered() && Inv(s, g, wiring, idempotent) && IsRun(s, g, wiring, idempotent, acts)
    ensures Inv(After(s, g, wiring, idempotent, acts), g, wiring, idempotent)
    decreases |acts|
  {
    if acts != [] {
      ApplyKeepsInv(s, g, wiring, idempotent, acts[0]);
      RunKeepsInv(Apply(s, g, wiring, idempotent, acts[0]), g, wiring, idempotent, acts[1..]);
    }
  }

  // ── Main result ───────────────────────────────────────────────────────────────────────────────

  /** The one row of the queue that carries `task`, still owed. */
  ghost predicate OwedByOneRow(q: Queue.State, task: Queue.Delivery) {
    exists id ::
      && id in q.rows && q.rows[id].Carries(task) && q.rows[id].doneAt.None?
      && forall j :: j in q.rows && q.rows[j].Carries(task) ==> j == id
  }

  /** Every interleaving of writers, listeners and workers: for a fact an idempotent consumer is owed,
      its writes commit at most once; once the consumer's cursor has reached the fact, exactly one task
      was ever enqueued for it, and either the writes have committed exactly once or that one task is
      still in the queue; and a done task is proof of the former. */
  lemma FactToEffectExactlyOnce(
    g: Limits, wiring: Delivery.Wiring, idempotent: set<Queue.Topic>, acts: seq<Act>, f: Fact, topic: Delivery.Topic)
    requires g.Covered() && IsRun(Init(), g, wiring, idempotent, acts)
    requires var s := After(Init(), g, wiring, idempotent, acts);
             f in s.d.log.facts && Delivery.Owed(f, wiring, topic) && topic in idempotent
    ensures var s := After(Init(), g, wiring, idempotent, acts);
            var task := (topic, f.key);
            && s.q.effects[task] <= 1
            && (AtOrBelow(f.key, Delivery.CursorOf(s.d, topic)) ==>
                  s.q.enqueued[task] == 1 && (s.q.effects[task] == 1 || OwedByOneRow(s.q, task)))
            && (forall id :: id in s.q.rows && s.q.rows[id].Carries(task) && s.q.rows[id].doneAt.Some?
                  ==> s.q.effects[task] == 1)
  {
    RunKeepsInv(Init(), g, wiring, idempotent, acts);
    var s := After(Init(), g, wiring, idempotent, acts);
    var task := (topic, f.key);
    assert Queue.Custody(s.q, idempotent, task);
    assert TaskOf((f.key, topic)) == task;
    if AtOrBelow(f.key, Delivery.CursorOf(s.d, topic)) {
      assert (f.key, topic) in s.d.ledger;
      assert s.q.enqueued[TaskOf((f.key, topic))] == 1;
      if s.q.effects[task] != 1 {
        var id :| id in s.q.rows && s.q.rows[id].Carries(task);
        assert s.q.rows[id].doneAt.None?;
      }
    }
  }
}
