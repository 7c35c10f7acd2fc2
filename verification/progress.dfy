/** What can still happen: from every reachable state, however many listeners and workers died on the way,
    a committed fact can be dispatched and its consumers' writes can commit. */
module Progress {
  import Journal
  import Delivery
  import Queue
  import Claims
  import EndToEnd

  type Topic = Delivery.Topic

  // ── A committed fact can always be dispatched ─────────────────────────────────────────────────

  type Pair = Delivery.Pair
  type Wiring = Delivery.Wiring

  /** Topics are free again once their holder's transaction is rolled back. */
  lemma FreeTopic(s: Delivery.State, g: Journal.Limits, wiring: Wiring, topic: Topic)
    returns (acts: seq<Delivery.Act>, t: Delivery.State)
    requires Delivery.LedgerInv(s, g)
    ensures Delivery.IsRun(s, g, wiring, acts) && t == Delivery.After(s, g, wiring, acts)
    ensures t == s.(ticks := t.ticks) && forall j :: j in t.ticks ==> topic !in t.ticks[j].cursors
    ensures forall a :: a in acts ==> a.AbortTick?
  {
    if j :| j in s.ticks && topic in s.ticks[j].cursors {
      acts := [Delivery.AbortTick(j)];
      t := Delivery.Apply(s, g, wiring, acts[0]);
      Delivery.UnrollRun(s, g, wiring, acts[0], []);
      assert acts == [acts[0]] + [];
    } else {
      acts, t := [], s;
    }
  }

  /** The steps of one whole tick of one topic, the settle window after whatever is visible now. */
  function TickActs(settle: nat, i: nat, topic: Topic): seq<Delivery.Act> {
    [Delivery.Journal(Journal.Elapse(settle + 1))]
    + ([Delivery.BeginTick(i)] + ([Delivery.TickTopic(i, topic)] + [Delivery.CommitTick(i)]))
  }

  ghost predicate StepsTo(s: Delivery.State, g: Journal.Limits, wiring: Wiring, a: Delivery.Act, t: Delivery.State) {
    Delivery.Enabled(s, g, wiring, a) && Delivery.Apply(s, g, wiring, a) == t
  }

  lemma FourSteps(
    g: Journal.Limits, wiring: Wiring, a: Delivery.Act, b: Delivery.Act, c: Delivery.Act, d: Delivery.Act,
    s0: Delivery.State, s1: Delivery.State, s2: Delivery.State, s3: Delivery.State, s4: Delivery.State)
    requires StepsTo(s0, g, wiring, a, s1) && StepsTo(s1, g, wiring, b, s2)
    requires StepsTo(s2, g, wiring, c, s3) && StepsTo(s3, g, wiring, d, s4)
    ensures Delivery.IsRun(s0, g, wiring, [a] + ([b] + ([c] + [d])))
    ensures Delivery.After(s0, g, wiring, [a] + ([b] + ([c] + [d]))) == s4
  {
    Delivery.UnrollRun(s3, g, wiring, d, []);
    assert [d] + [] == [d];
    Delivery.UnrollRun(s2, g, wiring, c, [d]);
    Delivery.UnrollRun(s1, g, wiring, b, [c] + [d]);
    Delivery.UnrollRun(s0, g, wiring, a, [b] + ([c] + [d]));
  }

  /** The state once the settle window has gone by, with instance `i`'s transaction, if any, besides. */
  function Later(s: Delivery.State, g: Journal.Limits): Delivery.State {
    s.(log := s.log.(now := s.log.now + (g.settle + 1)))
  }

  function WithTick(s: Delivery.State, i: nat, tick: Delivery.Tick): Delivery.State { s.(ticks := s.ticks[i := tick]) }

  function WithDispatch(s: Delivery.State, topic: Topic, d: Delivery.Dispatch): Delivery.State {
    s.(cursors := s.cursors[topic := d.cursor], ledger := s.ledger + Delivery.AsSet(d.pairs),
       tasks := s.tasks + d.pairs)
  }

  lemma WaitThenBegin(s: Delivery.State, g: Journal.Limits, wiring: Wiring, i: nat)
    requires i !in s.ticks
    ensures StepsTo(s, g, wiring, Delivery.Journal(Journal.Elapse(g.settle + 1)), Later(s, g))
    ensures var t := Later(s, g);
            StepsTo(t, g, wiring, Delivery.BeginTick(i), WithTick(t, i, Delivery.Tick(t.log.now, map[], [])))
  {
  }

  lemma FirstTopic(
    facts: seq<Journal.Fact>, kinds: set<Journal.Kind>, settle: nat, cursor: Journal.Key, topic: Topic,
    ledger: set<Pair>, started: nat, d: Delivery.Dispatch)
    requires d == Delivery.DispatchTopic(facts, kinds, started - settle, cursor, topic, ledger)
    ensures Delivery.TickStep(Delivery.Tick(started, map[], []), facts, kinds, settle, cursor, topic, ledger)
         == Delivery.Tick(started, map[topic := d.cursor], d.pairs)
  {
    assert map[][topic := d.cursor] == map[topic := d.cursor] && [] + d.pairs == d.pairs;
  }

  lemma TopicStep(
    s: Delivery.State, g: Journal.Limits, wiring: Wiring, i: nat, topic: Topic, begun: Delivery.Tick,
    stepped: Delivery.Tick)
    requires topic in wiring && begun.cursors == map[] && forall j :: j in s.ticks ==> topic !in s.ticks[j].cursors
    requires stepped == Delivery.TickStep(begun, s.log.facts, wiring[topic], g.settle, Delivery.CursorOf(s, topic),
                                          topic, s.ledger)
    ensures StepsTo(WithTick(s, i, begun), g, wiring, Delivery.TickTopic(i, topic), WithTick(s, i, stepped))
  {
    assert s.ticks[i := begun][i := stepped] == s.ticks[i := stepped];
  }

  lemma FirstTopicStep(
    s: Delivery.State, g: Journal.Limits, wiring: Wiring, i: nat, topic: Topic, started: nat, d: Delivery.Dispatch)
    requires topic in wiring && forall j :: j in s.ticks ==> topic !in s.ticks[j].cursors
    requires d == Delivery.DispatchTopic(s.log.facts, wiring[topic], started - g.settle, Delivery.CursorOf(s, topic),
                                         topic, s.ledger)
    ensures StepsTo(WithTick(s, i, Delivery.Tick(started, map[], [])), g, wiring, Delivery.TickTopic(i, topic),
                    WithTick(s, i, Delivery.Tick(started, map[topic := d.cursor], d.pairs)))
  {
    FirstTopic(s.log.facts, wiring[topic], g.settle, Delivery.CursorOf(s, topic), topic, s.ledger, started, d);
    TopicStep(s, g, wiring, i, topic, Delivery.Tick(started, map[], []),
              Delivery.Tick(started, map[topic := d.cursor], d.pairs));
  }

  lemma CommitStep(
    s: Delivery.State, g: Journal.Limits, wiring: Wiring, i: nat, topic: Topic, d: Delivery.Dispatch, started: nat)
    requires i !in s.ticks
    ensures StepsTo(WithTick(s, i, Delivery.Tick(started, map[topic := d.cursor], d.pairs)), g, wiring,
                    Delivery.CommitTick(i), WithDispatch(s, topic, d))
  {
    assert s.ticks[i := Delivery.Tick(started, map[topic := d.cursor], d.pairs)] - {i} == s.ticks;
    assert s.cursors + map[topic := d.cursor] == s.cursors[topic := d.cursor];
  }

  lemma TickRuns(s: Delivery.State, g: Journal.Limits, wiring: Wiring, i: nat, topic: Topic)
    returns (d: Delivery.Dispatch)
    requires topic in wiring && i !in s.ticks && forall j :: j in s.ticks ==> topic !in s.ticks[j].cursors
    ensures d == Delivery.DispatchTopic(s.log.facts, wiring[topic], s.log.now + (g.settle + 1) - g.settle,
                                        Delivery.CursorOf(s, topic), topic, s.ledger)
    ensures Delivery.IsRun(s, g, wiring, TickActs(g.settle, i, topic))
    ensures Delivery.After(s, g, wiring, TickActs(g.settle, i, topic)) == WithDispatch(Later(s, g), topic, d)
  {
    var started := s.log.now + (g.settle + 1);
    d := Delivery.DispatchTopic(s.log.facts, wiring[topic], started - g.settle, Delivery.CursorOf(s, topic), topic,
                                s.ledger);
    var t := Later(s, g);
    assert t.log.facts == s.log.facts && Delivery.CursorOf(t, topic) == Delivery.CursorOf(s, topic);
    WaitThenBegin(s, g, wiring, i);
    FirstTopicStep(t, g, wiring, i, topic, started, d);
    CommitStep(t, g, wiring, i, topic, d, started);
    FourSteps(g, wiring, Delivery.Journal(Journal.Elapse(g.settle + 1)), Delivery.BeginTick(i),
              Delivery.TickTopic(i, topic), Delivery.CommitTick(i), s, t,
              WithTick(t, i, Delivery.Tick(started, map[], [])),
              WithTick(t, i, Delivery.Tick(started, map[topic := d.cursor], d.pairs)), WithDispatch(t, topic, d));
  }

  lemma AllPassed(log: Journal.Log, g: Journal.Limits, kinds: set<Journal.Kind>, cursor: Journal.Key, started: nat)
    requires Journal.Valid(log, g) && started == log.now + g.settle + 1
    ensures var next := Journal.NextCursor(Journal.FactsAbove(log.facts, cursor, kinds), started - g.settle, cursor);
            forall f :: f in log.facts && f.kind in kinds ==> Journal.AtOrBelow(f.key, next)
  {
    var cutoff := started - g.settle;
    var next := Journal.NextCursor(Journal.FactsAbove(log.facts, cursor, kinds), cutoff, cursor);
    Journal.NextCursorIsSettled(log.facts, cursor, kinds, cutoff);
    Journal.NextCursorEndsSettledPrefix(log.facts, cursor, kinds, cutoff);
    forall f | f in log.facts && f.kind in kinds ensures Journal.AtOrBelow(f.key, next) {
      if Journal.Wants(cursor, kinds, f) {
        Journal.PassedIffSettled(log.facts, cursor, kinds, cutoff, next, f);
      }
    }
  }

  lemma TickPasses(s: Delivery.State, g: Journal.Limits, wiring: Wiring, f: Journal.Fact, topic: Topic)
    returns (acts: seq<Delivery.Act>)
    requires Journal.Valid(s.log, g) && f in s.log.facts && Delivery.Owed(f, wiring, topic)
    requires forall j :: j in s.ticks ==> topic !in s.ticks[j].cursors
    ensures Delivery.IsRun(s, g, wiring, acts)
    ensures var t := Delivery.After(s, g, wiring, acts);
            f in t.log.facts && Journal.AtOrBelow(f.key, Delivery.CursorOf(t, topic))
  {
    var i := Claims.Unused(s.ticks.Keys);
    var d := TickRuns(s, g, wiring, i, topic);
    AllPassed(s.log, g, wiring[topic], Delivery.CursorOf(s, topic), s.log.now + g.settle + 1);
    acts := TickActs(g.settle, i, topic);
  }

  /** Every committed fact that is owed to a topic can be dispatched to it, and its cursor can pass it. */
  lemma FactCanBeDispatched(s: Delivery.State, g: Journal.Limits, wiring: Wiring, f: Journal.Fact, topic: Topic)
    returns (acts: seq<Delivery.Act>)
    requires g.Covered() && Delivery.LedgerInv(s, g) && Delivery.CursorInv(s, g, wiring)
    requires f in s.log.facts && Delivery.Owed(f, wiring, topic)
    ensures Delivery.IsRun(s, g, wiring, acts)
    ensures var t := Delivery.After(s, g, wiring, acts);
            (f.key, topic) in t.ledger && Journal.AtOrBelow(f.key, Delivery.CursorOf(t, topic))
  {
    var aborts, u := FreeTopic(s, g, wiring, topic);
    Delivery.RunKeepsLedgerInv(s, g, wiring, aborts);
    var tick := TickPasses(u, g, wiring, f, topic);
    Delivery.RunConcat(s, g, wiring, aborts, tick);
    acts := aborts + tick;
    Delivery.RunKeepsInvariants(s, g, wiring, acts);
  }

  // ── And its consumers' writes can commit ──────────────────────────────────────────────────────

  lemma E2ECons(
    s: EndToEnd.State, g: Journal.Limits, wiring: Wiring, idempotent: set<Topic>, a: EndToEnd.Act,
    rest: seq<EndToEnd.Act>)
    requires EndToEnd.Enabled(s, g, wiring, idempotent, a)
    ensures EndToEnd.IsRun(s, g, wiring, idempotent, [a] + rest)
       <==> EndToEnd.IsRun(EndToEnd.Apply(s, g, wiring, idempotent, a), g, wiring, idempotent, rest)
    ensures EndToEnd.After(s, g, wiring, idempotent, [a] + rest)
         == EndToEnd.After(EndToEnd.Apply(s, g, wiring, idempotent, a), g, wiring, idempotent, rest)
  {
    assert ([a] + rest)[1..] == rest;
  }

  lemma {:induction false} E2EConcat(
    s: EndToEnd.State, g: Journal.Limits, wiring: Wiring, idempotent: set<Topic>, first: seq<EndToEnd.Act>,
    second: seq<EndToEnd.Act>)
    requires EndToEnd.IsRun(s, g, wiring, idempotent, first)
    requires EndToEnd.IsRun(EndToEnd.After(s, g, wiring, idempotent, first), g, wiring, idempotent, second)
    ensures EndToEnd.IsRun(s, g, wiring, idempotent, first + second)
    ensures EndToEnd.After(s, g, wiring, idempotent, first + second)
         == EndToEnd.After(EndToEnd.After(s, g, wiring, idempotent, first), g, wiring, idempotent, second)
    decreases |first|
  {
    if first == [] {
      assert first + second == second;
    } else {
      var t := EndToEnd.Apply(s, g, wiring, idempotent, first[0]);
      E2EConcat(t, g, wiring, idempotent, first[1..], second);
      assert first + second == [first[0]] + (first[1..] + second);
      E2ECons(s, g, wiring, idempotent, first[0], first[1..] + second);
    }
  }

  /** A step of the queue as a step of both machines: time passes for both at once. */
  function WorkAct(a: Queue.Act): EndToEnd.Act {
    if a.Elapse? then EndToEnd.Deliver(Delivery.Journal(Journal.Elapse(a.delay))) else EndToEnd.Work(a)
  }

  lemma {:induction false} QueueRunsInBoth(
    s: EndToEnd.State, g: Journal.Limits, wiring: Wiring, idempotent: set<Topic>, acts: seq<Queue.Act>)
    returns (both: seq<EndToEnd.Act>)
    requires Queue.IsRun(s.q, idempotent, acts) && forall a :: a in acts ==> !a.Enqueue?
    ensures EndToEnd.IsRun(s, g, wiring, idempotent, both)
    ensures EndToEnd.After(s, g, wiring, idempotent, both).q == Queue.After(s.q, idempotent, acts)
    decreases |acts|
  {
    if acts == [] {
      both := [];
    } else {
      assert acts[0] in acts && forall a :: a in acts[1..] ==> a in acts;
      var a := WorkAct(acts[0]);
      var rest := QueueRunsInBoth(EndToEnd.Apply(s, g, wiring, idempotent, a), g, wiring, idempotent, acts[1..]);
      both := [a] + rest;
      E2ECons(s, g, wiring, idempotent, a, rest);
    }
  }

  /** What dispatching does to the queue: it adds unfinished rows and changes none. */
  ghost predicate OnlyAdds(before: Queue.Rows, after: Queue.Rows) {
    forall id :: id in after ==> (id in before && after[id] == before[id]) || after[id].Unfinished()
  }

  lemma {:induction false} EnqueueAllAdds(q: Queue.State, idempotent: set<Topic>, pairs: seq<Pair>)
    ensures OnlyAdds(q.rows, EndToEnd.EnqueueAll(q, idempotent, pairs).rows)
    decreases |pairs|
  {
    if pairs != [] {
      EnqueueAllAdds(Queue.Apply(q, idempotent, Queue.Enqueue(pairs[0].1, Queue.Some(pairs[0].0), 5)), idempotent,
                     pairs[1..]);
    }
  }

  lemma {:induction false} DeliveryRunsInBoth(
    s: EndToEnd.State, g: Journal.Limits, wiring: Wiring, idempotent: set<Topic>, acts: seq<Delivery.Act>)
    returns (both: seq<EndToEnd.Act>)
    requires Delivery.IsRun(s.d, g, wiring, acts)
    ensures EndToEnd.IsRun(s, g, wiring, idempotent, both)
    ensures EndToEnd.After(s, g, wiring, idempotent, both).d == Delivery.After(s.d, g, wiring, acts)
    ensures OnlyAdds(s.q.rows, EndToEnd.After(s, g, wiring, idempotent, both).q.rows)
    decreases |acts|
  {
    if acts == [] {
      both := [];
    } else {
      var a := EndToEnd.Deliver(acts[0]);
      var t := EndToEnd.Apply(s, g, wiring, idempotent, a);
      if acts[0].CommitTick? && acts[0].i in s.d.ticks {
        EnqueueAllAdds(s.q, idempotent, s.d.ticks[acts[0].i].pairs);
      }
      assert OnlyAdds(s.q.rows, t.q.rows);
      var rest := DeliveryRunsInBoth(t, g, wiring, idempotent, acts[1..]);
      both := [a] + rest;
      E2ECons(s, g, wiring, idempotent, a, rest);
    }
  }

  /** Not parked: no worker has given up on this task. */
  ghost predicate NotParked(q: Queue.State, topic: Topic, event: Journal.Key) {
    forall id :: id in q.rows && q.rows[id].topic == topic && q.rows[id].event == Queue.Some(event) ==>
      q.rows[id].failedAt.None?
  }

  /** Once dispatched and not parked, a task's writes have committed or can. */
  lemma DispatchedCanCommit(
    s: EndToEnd.State, g: Journal.Limits, wiring: Wiring, idempotent: set<Topic>, event: Journal.Key, topic: Topic)
    returns (acts: seq<EndToEnd.Act>)
    requires EndToEnd.Inv(s, g, wiring, idempotent) && topic in idempotent
    requires (event, topic) in s.d.ledger && NotParked(s.q, topic, event)
    ensures EndToEnd.IsRun(s, g, wiring, idempotent, acts)
    ensures EndToEnd.After(s, g, wiring, idempotent, acts).q.effects[(topic, event)] == 1
  {
    var task := (topic, event);
    assert Queue.Custody(s.q, idempotent, task);
    assert s.q.enqueued[EndToEnd.TaskOf((event, topic))] == 1;
    if task in s.q.consumed {
      acts := [];
    } else {
      var id :| id in s.q.rows && s.q.rows[id].Carries(task);
      var work := Claims.UnfinishedCanCommit(s.q, idempotent, id, task);
      acts := QueueRunsInBoth(s, g, wiring, idempotent, work);
    }
  }

  /** From every reachable state, for every committed fact owed to an idempotent consumer that no worker gave
      up on: a run exists in which the consumer's writes have committed, exactly once. */
  lemma OwedFactCanTakeEffect(
    g: Journal.Limits, wiring: Wiring, idempotent: set<Topic>, before: seq<EndToEnd.Act>, f: Journal.Fact, topic: Topic)
    returns (acts: seq<EndToEnd.Act>)
    requires g.Covered() && EndToEnd.IsRun(EndToEnd.Init(), g, wiring, idempotent, before)
    requires var s := EndToEnd.After(EndToEnd.Init(), g, wiring, idempotent, before);
             && f in s.d.log.facts && Delivery.Owed(f, wiring, topic) && topic in idempotent
             && NotParked(s.q, topic, f.key)
    ensures var s := EndToEnd.After(EndToEnd.Init(), g, wiring, idempotent, before);
            && EndToEnd.IsRun(s, g, wiring, idempotent, acts)
            && EndToEnd.After(s, g, wiring, idempotent, acts).q.effects[(topic, f.key)] == 1
  {
    EndToEnd.RunKeepsInv(EndToEnd.Init(), g, wiring, idempotent, before);
    var s := EndToEnd.After(EndToEnd.Init(), g, wiring, idempotent, before);
    var dispatch := FactCanBeDispatched(s.d, g, wiring, f, topic);
    var first := DeliveryRunsInBoth(s, g, wiring, idempotent, dispatch);
    EndToEnd.RunKeepsInv(s, g, wiring, idempotent, first);
    var t := EndToEnd.After(s, g, wiring, idempotent, first);
    var second := DispatchedCanCommit(t, g, wiring, idempotent, f.key, topic);
    E2EConcat(s, g, wiring, idempotent, first, second);
    acts := first + second;
  }
}
