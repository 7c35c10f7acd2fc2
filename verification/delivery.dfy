/** The durable half of the listener's tick: each topic's backlog, dispatched off its own cursor row
    and ledger by any number of instances at once. */
module Delivery {
  import opened Journal

  type Topic = string
  type Pair = (Key, Topic)

  // ── One topic of one tick ─────────────────────────────────────────────────────────────────────

  /** The facts of `found` the ledger does not hold for `topic`, in order. */
  function Undispatched(found: seq<Fact>, topic: Topic, ledger: set<Pair>): seq<Pair> {
    if found == [] then []
    else
      (if (found[0].key, topic) in ledger then [] else [(found[0].key, topic)])
      + Undispatched(found[1..], topic, ledger)
  }

  /** What a tick writes for one topic: the cursor it leaves and the pairs it dispatches. */
  datatype Dispatch = Dispatch(cursor: Key, pairs: seq<Pair>)

  function DispatchTopic(
    facts: seq<Fact>, kinds: set<Kind>, cutoff: int, cursor: Key, topic: Topic, ledger: set<Pair>): Dispatch
  {
    var found := FactsAbove(facts, cursor, kinds);
    Dispatch(NextCursor(found, cutoff, cursor), Undispatched(found, topic, ledger))
  }

  function AsSet(pairs: seq<Pair>): set<Pair> { set p | p in pairs }

  lemma {:induction false} UndispatchedMembers(found: seq<Fact>, topic: Topic, ledger: set<Pair>)
    requires Sorted(found)
    ensures forall p :: p in Undispatched(found, topic, ledger)
                   <==> p !in ledger && p.1 == topic && exists f :: f in found && f.key == p.0
    ensures forall p :: p in Undispatched(found, topic, ledger)
                   ==> multiset(Undispatched(found, topic, ledger))[p] == 1
  {
    if found != [] {
      UndispatchedMembers(found[1..], topic, ledger);
      assert found == [found[0]] + found[1..];
      var rest := Undispatched(found[1..], topic, ledger);
      var head := (found[0].key, topic);
      assert head !in rest by {
        forall f | f in found[1..] ensures f.key != head.0 {
          var i :| 0 <= i < |found[1..]| && found[1..][i] == f;
          assert Below(found[0].key, found[i + 1].key);
        }
      }
      assert Undispatched(found, topic, ledger) == if head in ledger then rest else [head] + rest;
    }
  }

  // ── The machine: writers and listener instances interleaved ──────────────────────────────────

  /** An open listener transaction: the instant it began, the cursors it has locked and moved, and
      the pairs it has put in the ledger and the queue. All of it lands or vanishes together. */
  datatype Tick = Tick(started: nat, cursors: map<Topic, Key>, pairs: seq<Pair>)

  /** The tick after it has ticked one more topic, whose cursor it found at `cursor`. */
  function TickStep(
    tick: Tick, facts: seq<Fact>, kinds: set<Kind>, settle: nat, cursor: Key, topic: Topic, ledger: set<Pair>): Tick
  {
    var d := DispatchTopic(facts, kinds, tick.started - settle, cursor, topic, ledger);
    tick.(cursors := tick.cursors[topic := d.cursor], pairs := tick.pairs + d.pairs)
  }

  /** A missing `cursors` row stands for the row at nil that the first lock inserts. `tasks` lists
      every task ever enqueued for a reaction, in commit order. */
  datatype State = State(
    log: Log, cursors: map<Topic, Key>, ledger: set<Pair>, tasks: seq<Pair>, ticks: map<nat, Tick>)

  datatype Act =
    | Journal(act: Journal.Act)
    | BeginTick(i: nat)
    | TickTopic(i: nat, topic: Topic)
    | CommitTick(i: nat)
    | AbortTick(i: nat)

  /** The kinds each topic's reaction is owed. Instances may carry any of the topics; those that
      carry one agree on its kinds. */
  type Wiring = map<Topic, set<Kind>>

  ghost predicate Enabled(s: State, g: Limits, wiring: Wiring, a: Act) {
    match a
    case Journal(act) => Journal.Enabled(s.log, g, act)
    case BeginTick(i) => i !in s.ticks
    case TickTopic(i, topic) =>
      && i in s.ticks && topic in wiring
      && forall j :: j in s.ticks ==> topic !in s.ticks[j].cursors
    case CommitTick(i) => i in s.ticks
    case AbortTick(i) => i in s.ticks
  }

  function CursorIn(cursors: map<Topic, Key>, topic: Topic): Key {
    if topic in cursors then cursors[topic] else NIL
  }

  function CursorOf(s: State, topic: Topic): Key { CursorIn(s.cursors, topic) }

  function Apply(s: State, g: Limits, wiring: Wiring, a: Act): State {
    match a
    case Journal(act) => s.(log := Journal.Apply(s.log, act))
    case BeginTick(i) => s.(ticks := s.ticks[i := Tick(s.log.now, map[], [])])
    case TickTopic(i, topic) =>
      if i !in s.ticks || topic !in wiring then s
      else
        s.(ticks := s.ticks[i := TickStep(s.ticks[i], s.log.facts, wiring[topic], g.settle,
                                          CursorOf(s, topic), topic, s.ledger)])
    case CommitTick(i) =>
      if i !in s.ticks then s
      else
        var tick := s.ticks[i];
        State(s.log, s.cursors + tick.cursors, s.ledger + AsSet(tick.pairs), s.tasks + tick.pairs,
              s.ticks - {i})
    case AbortTick(i) => s.(ticks := s.ticks - {i})
  }

  function Init(): State { State(Log(0, map[], []), map[], {}, [], map[]) }

  ghost predicate IsRun(s: State, g: Limits, wiring: Wiring, acts: seq<Act>)
    decreases |acts|
  {
    acts == [] || (Enabled(s, g, wiring, acts[0]) && IsRun(Apply(s, g, wiring, acts[0]), g, wiring, acts[1..]))
  }

  function After(s: State, g: Limits, wiring: Wiring, acts: seq<Act>): State
    decreases |acts|
  {
    if acts == [] then s else After(Apply(s, g, wiring, acts[0]), g, wiring, acts[1..])
  }

  // ── The ledger and the queue agree, whatever the clocks do ────────────────────────────────────

  predicate Owed(f: Fact, wiring: Wiring, topic: Topic) {
    topic in wiring && f.kind in wiring[topic]
  }

  ghost predicate TickLedger(s: State, tick: Tick) {
    && (forall p :: multiset(tick.pairs)[p] <= 1)
    && (forall p :: p in tick.pairs ==> p !in s.ledger && p.1 in tick.cursors)
  }

  ghost predicate LedgerInv(s: State, g: Limits) {
    && Journal.Valid(s.log, g)
    && (forall i :: i in s.ticks ==> TickLedger(s, s.ticks[i]))
    && (forall i, j, topic :: i in s.ticks && j in s.ticks && i != j && topic in s.ticks[i].cursors
                         ==> topic !in s.ticks[j].cursors)
    && (forall p :: multiset(s.tasks)[p] == if p in s.ledger then 1 else 0)
  }

  lemma TickTopicKeepsTick(s: State, g: Limits, wiring: Wiring, i: nat, topic: Topic)
    requires LedgerInv(s, g) && Enabled(s, g, wiring, TickTopic(i, topic))
    ensures var t := Apply(s, g, wiring, TickTopic(i, topic)); TickLedger(t, t.ticks[i])
  {
    var tick := s.ticks[i];
    var cursor := CursorOf(s, topic);
    FactsAboveMembers(s.log.facts, cursor, wiring[topic]);
    var found := FactsAbove(s.log.facts, cursor, wiring[topic]);
    UndispatchedMembers(found, topic, s.ledger);
    var pairs := Undispatched(found, topic, s.ledger);
    assert TickLedger(s, tick);
    forall p
      ensures multiset(tick.pairs + pairs)[p] <= 1
    {
      assert multiset(tick.pairs + pairs) == multiset(tick.pairs) + multiset(pairs);
      if p in pairs {
        assert p !in tick.pairs;
      }
    }
  }

  lemma TickTopicKeepsLedgerInv(s: State, g: Limits, wiring: Wiring, i: nat, topic: Topic)
    requires LedgerInv(s, g) && Enabled(s, g, wiring, TickTopic(i, topic))
    ensures LedgerInv(Apply(s, g, wiring, TickTopic(i, topic)), g)
  {
    TickTopicKeepsTick(s, g, wiring, i, topic);
    var t := Apply(s, g, wiring, TickTopic(i, topic));
    assert t.ledger == s.ledger && t.tasks == s.tasks && t.log == s.log;
    forall j | j in t.ticks ensures TickLedger(t, t.ticks[j]) {
      if j != i {
        assert t.ticks[j] == s.ticks[j] && TickLedger(s, s.ticks[j]);
      }
    }
  }

  lemma CommitTickKeepsLedgerInv(s: State, g: Limits, wiring: Wiring, i: nat)
    requires LedgerInv(s, g) && i in s.ticks
    ensures LedgerInv(Apply(s, g, wiring, CommitTick(i)), g)
  {
    var t := Apply(s, g, wiring, CommitTick(i));
    var pairs := s.ticks[i].pairs;
    forall p
      ensures multiset(t.tasks)[p] == if p in t.ledger then 1 else 0
    {
      assert p in pairs <==> p in AsSet(pairs);
      assert p in pairs <==> multiset(pairs)[p] > 0;
    }
  }

  lemma ApplyKeepsLedgerInv(s: State, g: Limits, wiring: Wiring, a: Act)
    requires LedgerInv(s, g) && Enabled(s, g, wiring, a)
    ensures LedgerInv(Apply(s, g, wiring, a), g)
  {
    match a
    case Journal(act) => ApplyKeepsValid(s.log, g, act);
    case BeginTick(i) =>
    case TickTopic(i, topic) => TickTopicKeepsLedgerInv(s, g, wiring, i, topic);
    case CommitTick(i) => CommitTickKeepsLedgerInv(s, g, wiring, i);
    case AbortTick(i) =>
  }

  // ── No cursor passes a fact it has not dispatched ─────────────────────────────────────────────

  ghost predicate NoneSkipped(s: State, wiring: Wiring) {
    forall f, topic :: f in s.log.facts && Owed(f, wiring, topic) && AtOrBelow(f.key, CursorOf(s, topic))
                  ==> (f.key, topic) in s.ledger
  }

  ghost predicate TickSkipsNone(s: State, wiring: Wiring, tick: Tick) {
    forall f, topic :: f in s.log.facts && Owed(f, wiring, topic) && topic in tick.cursors
                    && AtOrBelow(f.key, tick.cursors[topic])
                  ==> (f.key, topic) in s.ledger || (f.key, topic) in tick.pairs
  }

  ghost predicate TickFits(s: State, g: Limits, wiring: Wiring, tick: Tick) {
    && tick.started <= s.log.now
    && (forall topic :: topic in tick.cursors ==> Sealed(s.log, g, tick.cursors[topic]))
    && TickSkipsNone(s, wiring, tick)
  }

  ghost predicate CursorInv(s: State, g: Limits, wiring: Wiring) {
    && (forall topic :: topic in s.cursors ==> Sealed(s.log, g, s.cursors[topic]))
    && (forall f :: f in s.log.facts ==> Below(NIL, f.key))
    && NoneSkipped(s, wiring)
    && (forall i :: i in s.ticks ==> TickFits(s, g, wiring, s.ticks[i]))
  }

  lemma WritersKeepCursorInv(s: State, g: Limits, wiring: Wiring, act: Journal.Act)
    requires LedgerInv(s, g) && CursorInv(s, g, wiring)
    requires Journal.Enabled(s.log, g, act)
    ensures CursorInv(Apply(s, g, wiring, Journal(act)), g, wiring)
  {
    var t := Apply(s, g, wiring, Journal(act));
    ApplyKeepsValid(s.log, g, act);
    forall f, c: Key | f in t.log.facts && f !in s.log.facts && Sealed(s.log, g, c)
      ensures Below(c, f.key)
    {
      SurfacesAboveSealed(s.log, g, act, c, f);
    }
  }

  /** Everything visible when a topic is ticked is dispatched once the tick's own pairs are. */
  lemma TickTopicCoversVisible(s: State, g: Limits, wiring: Wiring, i: nat, topic: Topic)
    requires LedgerInv(s, g) && CursorInv(s, g, wiring) && Enabled(s, g, wiring, TickTopic(i, topic))
    ensures var t := Apply(s, g, wiring, TickTopic(i, topic));
            forall f :: f in s.log.facts && f.kind in wiring[topic]
                   ==> (f.key, topic) in s.ledger || (f.key, topic) in t.ticks[i].pairs
  {
    var cursor := CursorOf(s, topic);
    FactsAboveMembers(s.log.facts, cursor, wiring[topic]);
    var found := FactsAbove(s.log.facts, cursor, wiring[topic]);
    UndispatchedMembers(found, topic, s.ledger);
    forall f | f in s.log.facts && f.kind in wiring[topic] && (f.key, topic) !in s.ledger
      ensures (f.key, topic) in Undispatched(found, topic, s.ledger)
    {
      assert Owed(f, wiring, topic);
      assert f in found;
    }
  }

  lemma TickTopicSkipsNone(s: State, g: Limits, wiring: Wiring, i: nat, topic: Topic)
    requires LedgerInv(s, g) && CursorInv(s, g, wiring) && Enabled(s, g, wiring, TickTopic(i, topic))
    ensures var t := Apply(s, g, wiring, TickTopic(i, topic)); TickSkipsNone(t, wiring, t.ticks[i])
  {
    var t := Apply(s, g, wiring, TickTopic(i, topic));
    TickTopicCoversVisible(s, g, wiring, i, topic);
    assert TickFits(s, g, wiring, s.ticks[i]);
    assert t.ticks[i].pairs[..|s.ticks[i].pairs|] == s.ticks[i].pairs;
    assert forall p :: p in s.ticks[i].pairs ==> p in t.ticks[i].pairs;
  }

  lemma TickTopicFits(s: State, g: Limits, wiring: Wiring, i: nat, topic: Topic)
    requires g.Covered() && LedgerInv(s, g) && CursorInv(s, g, wiring)
    requires Enabled(s, g, wiring, TickTopic(i, topic))
    ensures var t := Apply(s, g, wiring, TickTopic(i, topic)); TickFits(t, g, wiring, t.ticks[i])
  {
    assert TickFits(s, g, wiring, s.ticks[i]);
    TickTopicSkipsNone(s, g, wiring, i, topic);
    NextCursorIsSealed(s.log, g, CursorOf(s, topic), wiring[topic], s.ticks[i].started);
  }

  lemma TickTopicKeepsCursorInv(s: State, g: Limits, wiring: Wiring, i: nat, topic: Topic)
    requires g.Covered() && LedgerInv(s, g) && CursorInv(s, g, wiring)
    requires Enabled(s, g, wiring, TickTopic(i, topic))
    ensures CursorInv(Apply(s, g, wiring, TickTopic(i, topic)), g, wiring)
  {
    var t := Apply(s, g, wiring, TickTopic(i, topic));
    TickTopicFits(s, g, wiring, i, topic);
    forall j | j in t.ticks && j != i ensures TickFits(t, g, wiring, t.ticks[j]) {
      OtherTickFits(s, t, g, wiring, s.ticks[j]);
    }
  }

  lemma OtherTickFits(s: State, t: State, g: Limits, wiring: Wiring, tick: Tick)
    requires TickFits(s, g, wiring, tick) && t.log == s.log && t.ledger == s.ledger
    ensures TickFits(t, g, wiring, tick)
  {
  }

  lemma CommitTickKeepsCursorInv(s: State, g: Limits, wiring: Wiring, i: nat)
    requires LedgerInv(s, g) && CursorInv(s, g, wiring) && i in s.ticks
    ensures CursorInv(Apply(s, g, wiring, CommitTick(i)), g, wiring)
  {
    var t := Apply(s, g, wiring, CommitTick(i));
    var tick := s.ticks[i];
    forall p | p in tick.pairs ensures p in t.ledger { assert p in AsSet(tick.pairs); }
    assert TickSkipsNone(s, wiring, tick);
    assert forall topic :: CursorOf(t, topic)
                        == if topic in tick.cursors then tick.cursors[topic] else CursorOf(s, topic);
  }

  lemma ListenerKeepsCursorInv(s: State, g: Limits, wiring: Wiring, a: Act)
    requires g.Covered() && LedgerInv(s, g) && CursorInv(s, g, wiring)
    requires Enabled(s, g, wiring, a) && !a.Journal?
    ensures CursorInv(Apply(s, g, wiring, a), g, wiring)
  {
    match a
    case BeginTick(i) =>
    case TickTopic(i, topic) => TickTopicKeepsCursorInv(s, g, wiring, i, topic);
    case CommitTick(i) => CommitTickKeepsCursorInv(s, g, wiring, i);
    case AbortTick(i) =>
  }

  lemma {:induction false} RunKeepsInvariants(s: State, g: Limits, wiring: Wiring, acts: seq<Act>)
    requires g.Covered() && LedgerInv(s, g) && CursorInv(s, g, wiring) && IsRun(s, g, wiring, acts)
    ensures LedgerInv(After(s, g, wiring, acts), g) && CursorInv(After(s, g, wiring, acts), g, wiring)
    decreases |acts|
  {
    if acts != [] {
      ApplyKeepsLedgerInv(s, g, wiring, acts[0]);
      if acts[0].Journal? {
        WritersKeepCursorInv(s, g, wiring, acts[0].act);
      } else {
        ListenerKeepsCursorInv(s, g, wiring, acts[0]);
      }
      RunKeepsInvariants(Apply(s, g, wiring, acts[0]), g, wiring, acts[1..]);
    }
  }

  lemma {:induction false} RunKeepsLedgerInv(s: State, g: Limits, wiring: Wiring, acts: seq<Act>)
    requires LedgerInv(s, g) && IsRun(s, g, wiring, acts)
    ensures LedgerInv(After(s, g, wiring, acts), g)
    decreases |acts|
  {
    if acts != [] {
      ApplyKeepsLedgerInv(s, g, wiring, acts[0]);
      RunKeepsLedgerInv(Apply(s, g, wiring, acts[0]), g, wiring, acts[1..]);
    }
  }

  // ── Main results ──────────────────────────────────────────────────────────────────────────────

  /** In every run, whatever the clocks: a pair is in the ledger if and only if exactly one task was
      ever enqueued for it, and otherwise none was. */
  lemma OneTaskPerDispatchedPair(g: Limits, wiring: Wiring, acts: seq<Act>)
    requires IsRun(Init(), g, wiring, acts)
    ensures var s := After(Init(), g, wiring, acts);
            forall p :: multiset(s.tasks)[p] == if p in s.ledger then 1 else 0
  {
    RunKeepsLedgerInv(Init(), g, wiring, acts);
  }

  /** A topic whose cursor a tick locked has every fact visible at that moment dispatched once the
      tick commits, however long the backlog, whatever else happened in between. */
  lemma TickDispatchesWholeBacklog(
    g: Limits, wiring: Wiring, before: seq<Act>, i: nat, topic: Topic, between: seq<Act>)
    requires g.Covered()
    requires IsRun(Init(), g, wiring, before)
    requires Enabled(After(Init(), g, wiring, before), g, wiring, TickTopic(i, topic))
    requires var s := Apply(After(Init(), g, wiring, before), g, wiring, TickTopic(i, topic));
             IsRun(s, g, wiring, between) && StaysOpen(between, i)
    ensures var s := After(Init(), g, wiring, before);
            var t := After(Apply(s, g, wiring, TickTopic(i, topic)), g, wiring, between);
            forall f :: f in s.log.facts && f.kind in wiring[topic]
                   ==> (f.key, topic) in Apply(t, g, wiring, CommitTick(i)).ledger
  {
    RunKeepsInvariants(Init(), g, wiring, before);
    var s := After(Init(), g, wiring, before);
    TickTopicCoversVisible(s, g, wiring, i, topic);
    var u := Apply(s, g, wiring, TickTopic(i, topic));
    OpenTickGrows(u, g, wiring, between, i);
    var t := After(u, g, wiring, between);
    forall f | f in s.log.facts && f.kind in wiring[topic]
      ensures (f.key, topic) in Apply(t, g, wiring, CommitTick(i)).ledger
    {
      assert (f.key, topic) in u.ledger || (f.key, topic) in AsSet(u.ticks[i].pairs);
    }
  }

  /** No step of `acts` ends instance `i`'s transaction. */
  ghost predicate StaysOpen(acts: seq<Act>, i: nat) {
    forall a :: a in acts ==> a != CommitTick(i) && a != AbortTick(i)
  }

  lemma {:induction false} OpenTickGrows(s: State, g: Limits, wiring: Wiring, acts: seq<Act>, i: nat)
    requires i in s.ticks && IsRun(s, g, wiring, acts) && StaysOpen(acts, i)
    ensures var t := After(s, g, wiring, acts);
            i in t.ticks && AsSet(s.ticks[i].pairs) <= AsSet(t.ticks[i].pairs) && s.ledger <= t.ledger
    decreases |acts|
  {
    if acts != [] {
      assert acts[0] in acts;
      assert forall a :: a in acts[1..] ==> a in acts;
      OpenTickGrows(Apply(s, g, wiring, acts[0]), g, wiring, acts[1..], i);
    }
  }

  // ── When the promise holds, exactly ───────────────────────────────────────────────────────────

  /** In every reachable state no fact, early or late to commit, lies at or below the cursor of a
      topic it is owed to without being dispatched to it. */
  lemma NoFactSkipped(g: Limits, wiring: Wiring, acts: seq<Act>)
    requires g.Covered() && IsRun(Init(), g, wiring, acts)
    ensures NoneSkipped(After(Init(), g, wiring, acts), wiring)
  {
    RunKeepsInvariants(Init(), g, wiring, acts);
  }

  lemma UnrollRun(s: State, g: Limits, wiring: Wiring, a: Act, rest: seq<Act>)
    ensures IsRun(s, g, wiring, [a] + rest)
       <==> Enabled(s, g, wiring, a) && IsRun(Apply(s, g, wiring, a), g, wiring, rest)
    ensures After(s, g, wiring, [a] + rest) == After(Apply(s, g, wiring, a), g, wiring, rest)
  {
    assert ([a] + rest)[1..] == rest;
  }

  lemma {:induction false} UnrollAll(s: State, g: Limits, wiring: Wiring, acts: seq<Act>, states: seq<State>)
    requires |states| == |acts| + 1 && states[0] == s
    requires forall k :: 0 <= k < |acts| ==>
               Enabled(states[k], g, wiring, acts[k]) && states[k + 1] == Apply(states[k], g, wiring, acts[k])
    ensures IsRun(s, g, wiring, acts) && After(s, g, wiring, acts) == states[|acts|]
    decreases |acts|
  {
    if acts != [] {
      UnrollAll(states[1], g, wiring, acts[1..], states[1..]);
    }
  }

  lemma {:induction false} RunConcat(s: State, g: Limits, wiring: Wiring, first: seq<Act>, second: seq<Act>)
    requires IsRun(s, g, wiring, first) && IsRun(After(s, g, wiring, first), g, wiring, second)
    ensures IsRun(s, g, wiring, first + second)
    ensures After(s, g, wiring, first + second) == After(After(s, g, wiring, first), g, wiring, second)
    decreases |first|
  {
    if first == [] {
      assert first + second == second;
    } else {
      RunConcat(Apply(s, g, wiring, first[0]), g, wiring, first[1..], second);
      assert first + second == [first[0]] + (first[1..] + second);
      UnrollRun(s, g, wiring, first[0], first[1..] + second);
    }
  }

  const NO_CURSORS: map<Topic, Key> := map[]

  function Written(now: nat, writers: map<nat, Writer>, facts: seq<Fact>): State {
    State(Log(now, writers, facts), NO_CURSORS, {}, [], map[])
  }

  /** The first writer mints `quick` late in its transaction and commits at once; the second mints
      `early`, a lower key, right after, and stays open. */
  lemma LateCommitSetUp(g: Limits, wiring: Wiring, quick: Fact, early: Fact, late: nat) returns (acts: seq<Act>)
    requires quick == Fact(Key(g.Lag(), 2), quick.kind, 0) && early == Fact(Key(g.Lag(), 1), quick.kind, g.Lag())
    requires g.Lag() <= late
    ensures IsRun(Init(), g, wiring, acts)
    ensures After(Init(), g, wiring, acts) == Written(late, map[1 := Writer(g.Lag(), [early])], [quick])
  {
    var lag := g.Lag();
    acts := [Journal(Begin(0)), Journal(Elapse(lag)), Journal(Insert(0, quick.kind, 2)), Journal(Commit(0)),
             Journal(Begin(1)), Journal(Insert(1, quick.kind, 1)), Journal(Elapse(late - lag))];
    var empty: map<nat, Writer> := map[];
    var states := [
      Init(),
      Written(0, map[0 := Writer(0, [])], []),
      Written(lag, map[0 := Writer(0, [])], []),
      Written(lag, map[0 := Writer(0, [quick])], []),
      Written(lag, empty, [quick]),
      Written(lag, map[1 := Writer(lag, [])], [quick]),
      Written(lag, map[1 := Writer(lag, [early])], [quick]),
      Written(late, map[1 := Writer(lag, [early])], [quick])
    ];
    PlaceAllOne([], quick);
    assert states[4].log.writers == states[3].log.writers - {0};
    assert [] + [quick] == [quick] && [] + [early] == [early];
    forall k | 0 <= k < |acts|
      ensures Enabled(states[k], g, wiring, acts[k]) && states[k + 1] == Apply(states[k], g, wiring, acts[k])
    {
      if k == 3 {
        assert states[4] == Apply(states[3], g, wiring, acts[3]);
      }
    }
    UnrollAll(Init(), g, wiring, acts, states);
  }

  /** A tick finds `quick` settled and moves past it; then `early` commits. */
  lemma LateCommitMissed(g: Limits, wiring: Wiring, topic: Topic, quick: Fact, early: Fact, late: nat)
    returns (acts: seq<Act>)
    requires quick == Fact(Key(g.Lag(), 2), quick.kind, 0) && early == Fact(Key(g.Lag(), 1), quick.kind, g.Lag())
    requires topic in wiring && quick.kind in wiring[topic]
    requires g.settle < late <= g.Lag() + g.Open()
    ensures var s := Written(late, map[1 := Writer(g.Lag(), [early])], [quick]);
            IsRun(s, g, wiring, acts) && !NoneSkipped(After(s, g, wiring, acts), wiring)
  {
    var writers, noWriters: map<nat, Writer> := map[1 := Writer(g.Lag(), [early])], map[];
    var pair := (quick.key, topic);
    acts := [BeginTick(0), TickTopic(0, topic), CommitTick(0), Journal(Commit(1))];
    var s0 := Written(late, writers, [quick]);
    var s1 := s0.(ticks := map[0 := Tick(late, NO_CURSORS, [])]);
    var s2 := s0.(ticks := map[0 := Tick(late, map[topic := quick.key], [pair])]);
    var s3 := State(s0.log, map[topic := quick.key], {pair}, [pair], map[]);
    var s4 := s3.(log := Log(late, noWriters, [early, quick]));
    assert Apply(s1, g, wiring, acts[1]) == s2 by {
      assert [quick][1..] == [];
      assert FactsAbove([quick], NIL, wiring[topic]) == [quick];
      assert SettledCount([quick], late - g.settle) == 1;
      assert Undispatched([quick], topic, {}) == [pair];
      assert [] + [pair] == [pair];
      assert s2.ticks == s1.ticks[0 := s2.ticks[0]];
    }
    assert Apply(s2, g, wiring, acts[2]) == s3;
    assert Apply(s3, g, wiring, acts[3]) == s4 by {
      PlaceAllOne([quick], early);
      assert s4.log.writers == s3.log.writers - {1};
    }
    UnrollAll(s0, g, wiring, acts, [s0, s1, s2, s3, s4]);
    assert early in s4.log.facts && Owed(early, wiring, topic) && AtOrBelow(early.key, CursorOf(s4, topic));
  }

  lemma UncoveredWindowSkips(g: Limits, wiring: Wiring, topic: Topic, kind: Kind) returns (acts: seq<Act>)
    requires !g.Covered() && topic in wiring && kind in wiring[topic]
    ensures IsRun(Init(), g, wiring, acts) && !NoneSkipped(After(Init(), g, wiring, acts), wiring)
  {
    var lag := g.Lag();
    var late := if lag <= g.settle then g.settle + 1 else lag;
    var quick, early := Fact(Key(lag, 2), kind, 0), Fact(Key(lag, 1), kind, lag);
    var first := LateCommitSetUp(g, wiring, quick, early, late);
    var second := LateCommitMissed(g, wiring, topic, quick, early, late);
    RunConcat(Init(), g, wiring, first, second);
    acts := first + second;
  }

  /** The delivery promise, exactly: no run skips a fact if and only if the settle window covers the
      longest begin-to-mint delay plus the longest mint-to-commit delay. */
  lemma NothingSkippedIffCovered(g: Limits, wiring: Wiring, topic: Topic, kind: Kind)
    requires topic in wiring && kind in wiring[topic]
    ensures g.Covered()
       <==> forall acts :: IsRun(Init(), g, wiring, acts) ==> NoneSkipped(After(Init(), g, wiring, acts), wiring)
  {
    if g.Covered() {
      forall acts | IsRun(Init(), g, wiring, acts) ensures NoneSkipped(After(Init(), g, wiring, acts), wiring) {
        NoFactSkipped(g, wiring, acts);
      }
    } else {
      var acts := UncoveredWindowSkips(g, wiring, topic, kind);
    }
  }

  /** When all that is known of a transaction is that it lasts at most `whole`, half the settle window
      is what it may last: a transaction open for just under the window can still lose its facts. */
  lemma WholeTransactionMayLastHalfTheWindow(settle: nat, whole: nat, wiring: Wiring, topic: Topic, kind: Kind)
    requires topic in wiring && kind in wiring[topic]
    ensures var g := Limits(settle, whole, whole, whole);
            2 * whole <= settle <==>
              forall acts :: IsRun(Init(), g, wiring, acts) ==> NoneSkipped(After(Init(), g, wiring, acts), wiring)
  {
    NothingSkippedIffCovered(Limits(settle, whole, whole, whole), wiring, topic, kind);
  }

  // ── A fact once skipped stays skipped ─────────────────────────────────────────────────────────

  ghost predicate Lost(s: State, key: Key, topic: Topic) {
    && (key, topic) !in s.ledger
    && AtOrBelow(key, CursorOf(s, topic))
    && forall i :: i in s.ticks ==>
         && (key, topic) !in s.ticks[i].pairs
         && (topic in s.ticks[i].cursors ==> AtOrBelow(key, s.ticks[i].cursors[topic]))
  }

  lemma ApplyKeepsLost(s: State, g: Limits, wiring: Wiring, a: Act, key: Key, topic: Topic)
    requires LedgerInv(s, g) && Enabled(s, g, wiring, a) && Lost(s, key, topic)
    ensures Lost(Apply(s, g, wiring, a), key, topic)
  {
    if a.TickTopic? {
      var cursor := CursorOf(s, a.topic);
      var found := FactsAbove(s.log.facts, cursor, wiring[a.topic]);
      FactsAboveMembers(s.log.facts, cursor, wiring[a.topic]);
      UndispatchedMembers(found, a.topic, s.ledger);
      NextCursorIsSettled(s.log.facts, cursor, wiring[a.topic], s.ticks[a.i].started - g.settle);
    }
  }

  /** No later tick of any instance ever dispatches it: nothing stands behind the cursor. */
  lemma {:induction false} LostForever(s: State, g: Limits, wiring: Wiring, acts: seq<Act>, key: Key, topic: Topic)
    requires LedgerInv(s, g) && Lost(s, key, topic) && IsRun(s, g, wiring, acts)
    ensures Lost(After(s, g, wiring, acts), key, topic)
    decreases |acts|
  {
    if acts != [] {
      ApplyKeepsLedgerInv(s, g, wiring, acts[0]);
      ApplyKeepsLost(s, g, wiring, acts[0], key, topic);
      LostForever(Apply(s, g, wiring, acts[0]), g, wiring, acts[1..], key, topic);
    }
  }
}
