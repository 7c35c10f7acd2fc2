/** One instance's tick as it runs: the loops and the in-place updates, each proved against the
    functions the state machines of `Delivery` and `Spread` step by. */
module Listener {
  import opened Journal
  import Delivery
  import Spread

  type Topic = Delivery.Topic
  type Pair = Delivery.Pair

  datatype Option<T> = None | Some(value: T)

  /** A durable consumer as the listener's wiring lists it, with the kinds of its event type. */
  datatype Reaction = Reaction(topic: Topic, kinds: set<Kind>)

  /** The tables as one open listener session reads and writes them. */
  class Store {
    const facts: seq<Fact>
    var cursors: map<Topic, Key>
    var ledger: set<Pair>
    var tasks: seq<Pair>

    constructor (facts: seq<Fact>, cursors: map<Topic, Key>, ledger: set<Pair>, tasks: seq<Pair>)
      ensures this.facts == facts && this.cursors == cursors && this.ledger == ledger && this.tasks == tasks
    {
      this.facts, this.cursors, this.ledger, this.tasks := facts, cursors, ledger, tasks;
    }

    function Rows(): View
      reads this
    {
      View(cursors, ledger, tasks)
    }

    /** Insert the topic's row at nil unless it exists, then take it unless another session holds
        it. */
    method LockDispatchCursor(topic: Topic, held: set<Topic>) returns (cursor: Option<Key>)
      modifies this`cursors
      ensures cursors == old(cursors)[topic := Delivery.CursorIn(old(cursors), topic)]
      ensures cursor == if topic in held then None else Some(Delivery.CursorIn(old(cursors), topic))
    {
      if topic !in cursors {
        cursors := cursors[topic := NIL];
      }
      cursor := if topic in held then None else Some(cursors[topic]);
      assert cursors == old(cursors)[topic := cursors[topic]];
    }

    method AdvanceDispatchCursor(topic: Topic, cursor: Key)
      modifies this`cursors
      ensures cursors == if topic in old(cursors) then old(cursors)[topic := cursor] else old(cursors)
    {
      if topic in cursors {
        cursors := cursors[topic := cursor];
      }
    }

    /** Insert-or-nothing. */
    method DispatchConsumer(event: Key, topic: Topic) returns (first: bool)
      modifies this`ledger
      ensures first <==> (event, topic) !in old(ledger)
      ensures ledger == old(ledger) + {(event, topic)}
    {
      first := (event, topic) !in ledger;
      ledger := ledger + {(event, topic)};
    }

    method Enqueue(topic: Topic, event: Key)
      modifies this`tasks
      ensures tasks == old(tasks) + [(event, topic)]
    {
      tasks := tasks + [(event, topic)];
    }
  }

  lemma UndispatchedSnoc(found: seq<Fact>, topic: Topic, ledger: set<Pair>, k: nat)
    requires k < |found|
    ensures Delivery.Undispatched(found[..k + 1], topic, ledger)
         == Delivery.Undispatched(found[..k], topic, ledger)
            + if (found[k].key, topic) in ledger then [] else [(found[k].key, topic)]
  {
    if k > 0 {
      assert found[..k + 1][1..] == found[1..][..k] && found[..k][1..] == found[1..][..k - 1];
      UndispatchedSnoc(found[1..], topic, ledger, k - 1);
    }
  }

  /** What the ledger answers for the next fact of a scan, once the ones before it are dispatched. */
  lemma UndispatchedNext(found: seq<Fact>, topic: Topic, ledger: set<Pair>, k: nat)
    requires k < |found| && Sorted(found)
    ensures var done := Delivery.Undispatched(found[..k], topic, ledger);
            var pair := (found[k].key, topic);
            && pair !in Delivery.AsSet(done)
            && Delivery.Undispatched(found[..k + 1], topic, ledger) == done + (if pair in ledger then [] else [pair])
            && Delivery.AsSet(done + [pair]) == Delivery.AsSet(done) + {pair}
  {
    UndispatchedSnoc(found, topic, ledger, k);
    Delivery.UndispatchedMembers(found[..k], topic, ledger);
    forall f | f in found[..k] ensures f.key != found[k].key {
      var i :| 0 <= i < k && found[i] == f;
    }
  }

  /** The open transaction's writes after the first `n` reactions, in order, but for the topics held. */
  function BacklogTick(
    tick: Delivery.Tick, facts: seq<Fact>, settle: nat, cursors: map<Topic, Key>, ledger: set<Pair>,
    reactions: seq<Reaction>, held: set<Topic>, n: nat): Delivery.Tick
    requires n <= |reactions|
  {
    if n == 0 then tick
    else
      var before := BacklogTick(tick, facts, settle, cursors, ledger, reactions, held, n - 1);
      var r := reactions[n - 1];
      if r.topic in held then before
      else Delivery.TickStep(before, facts, r.kinds, settle, Delivery.CursorIn(cursors, r.topic), r.topic, ledger)
  }

  ghost predicate DistinctTopics(reactions: seq<Reaction>) {
    forall i, j :: 0 <= i < j < |reactions| ==> reactions[i].topic != reactions[j].topic
  }

  /** Dispatching one topic leaves the ledger's answer for every other topic as it was. */
  lemma {:induction false} UndispatchedIgnoresOthers(
    found: seq<Fact>, topic: Topic, ledger: set<Pair>, others: set<Pair>)
    requires forall p :: p in others ==> p.1 != topic
    ensures Delivery.Undispatched(found, topic, ledger + others) == Delivery.Undispatched(found, topic, ledger)
  {
    if found != [] {
      UndispatchedIgnoresOthers(found[1..], topic, ledger, others);
    }
  }

  lemma {:induction false} BacklogTickTopics(
    tick: Delivery.Tick, facts: seq<Fact>, settle: nat, cursors: map<Topic, Key>, ledger: set<Pair>,
    reactions: seq<Reaction>, held: set<Topic>, n: nat)
    requires n <= |reactions| && Sorted(facts) && tick.pairs == [] && tick.cursors == map[]
    ensures var t := BacklogTick(tick, facts, settle, cursors, ledger, reactions, held, n);
            && t.started == tick.started
            && (forall p :: p in t.pairs ==> exists k :: 0 <= k < n && reactions[k].topic == p.1)
            && (forall topic :: topic in t.cursors ==>
                  exists k :: 0 <= k < n && reactions[k].topic == topic && topic !in held)
  {
    if n > 0 {
      BacklogTickTopics(tick, facts, settle, cursors, ledger, reactions, held, n - 1);
      var r := reactions[n - 1];
      var cursor := Delivery.CursorIn(cursors, r.topic);
      FactsAboveMembers(facts, cursor, r.kinds);
      Delivery.UndispatchedMembers(FactsAbove(facts, cursor, r.kinds), r.topic, ledger);
    }
  }

  function Next(facts: seq<Fact>, r: Reaction, cursor: Key, cutoff: int): Key {
    NextCursor(FactsAbove(facts, cursor, r.kinds), cutoff, cursor)
  }

  /** A reaction's cursor moved to the end of its settled prefix. */
  ghost predicate EndsAt(facts: seq<Fact>, r: Reaction, before: View, cutoff: int, after: View) {
    EndsSettledPrefix(facts, Delivery.CursorIn(before.cursors, r.topic), r.kinds, cutoff,
                      Delivery.CursorIn(after.cursors, r.topic))
  }

  lemma NextEnds(facts: seq<Fact>, r: Reaction, before: View, cutoff: int, after: View)
    requires Sorted(facts)
    requires Delivery.CursorIn(after.cursors, r.topic)
          == Next(facts, r, Delivery.CursorIn(before.cursors, r.topic), cutoff)
    ensures EndsAt(facts, r, before, cutoff, after)
  {
    NextCursorEndsSettledPrefix(facts, Delivery.CursorIn(before.cursors, r.topic), r.kinds, cutoff);
  }

  /** What `DispatchReaction` leaves is the free topic's cursor at the end of its settled prefix. */
  lemma ReactionAdvances(before: View, facts: seq<Fact>, r: Reaction, held: set<Topic>, cutoff: int)
    requires Sorted(facts) && r.topic !in held
    ensures EndsAt(facts, r, before, cutoff, Ticked(before, facts, r, held, cutoff))
  {
    NextEnds(facts, r, before, cutoff, Ticked(before, facts, r, held, cutoff));
  }

  lemma TickedCursor(before: View, facts: seq<Fact>, r: Reaction, held: set<Topic>, cutoff: int, topic: Topic)
    ensures Delivery.CursorIn(Ticked(before, facts, r, held, cutoff).cursors, topic)
         == if topic == r.topic && topic !in held then Next(facts, r, Delivery.CursorIn(before.cursors, topic), cutoff)
            else Delivery.CursorIn(before.cursors, topic)
  {
  }

  lemma {:induction false} DispatchedCursor(
    before: View, facts: seq<Fact>, reactions: seq<Reaction>, held: set<Topic>, cutoff: int, n: nat, topic: Topic)
    requires n <= |reactions| && forall k :: 0 <= k < n ==> reactions[k].topic != topic || topic in held
    ensures Delivery.CursorIn(Dispatched(before, facts, reactions, held, cutoff, n).cursors, topic)
         == Delivery.CursorIn(before.cursors, topic)
  {
    if n > 0 {
      DispatchedCursor(before, facts, reactions, held, cutoff, n - 1, topic);
      TickedCursor(Dispatched(before, facts, reactions, held, cutoff, n - 1), facts, reactions[n - 1], held, cutoff,
                   topic);
    }
  }

  lemma {:induction false} DispatchedNext(
    before: View, facts: seq<Fact>, reactions: seq<Reaction>, held: set<Topic>, cutoff: int, n: nat, k: nat)
    requires DistinctTopics(reactions) && k < n <= |reactions| && reactions[k].topic !in held
    ensures Delivery.CursorIn(Dispatched(before, facts, reactions, held, cutoff, n).cursors, reactions[k].topic)
         == Next(facts, reactions[k], Delivery.CursorIn(before.cursors, reactions[k].topic), cutoff)
    decreases n
  {
    TickedCursor(Dispatched(before, facts, reactions, held, cutoff, n - 1), facts, reactions[n - 1], held, cutoff,
                 reactions[k].topic);
    if k < n - 1 {
      DispatchedNext(before, facts, reactions, held, cutoff, n - 1, k);
    } else {
      DispatchedCursor(before, facts, reactions, held, cutoff, k, reactions[k].topic);
    }
  }

  /** What `DispatchBacklog` leaves: each free topic's cursor at the end of its settled prefix, and every
      other cursor as it was. */
  lemma BacklogAdvances(before: View, facts: seq<Fact>, reactions: seq<Reaction>, held: set<Topic>, cutoff: int)
    requires Sorted(facts) && DistinctTopics(reactions)
    ensures var after := Dispatched(before, facts, reactions, held, cutoff, |reactions|);
            && (forall k :: 0 <= k < |reactions| && reactions[k].topic !in held ==>
                  EndsAt(facts, reactions[k], before, cutoff, after))
            && (forall topic :: (forall k :: 0 <= k < |reactions| ==> reactions[k].topic != topic || topic in held) ==>
                  Delivery.CursorIn(after.cursors, topic) == Delivery.CursorIn(before.cursors, topic))
  {
    var after := Dispatched(before, facts, reactions, held, cutoff, |reactions|);
    forall k | 0 <= k < |reactions| && reactions[k].topic !in held
      ensures EndsAt(facts, reactions[k], before, cutoff, after)
    {
      DispatchedNext(before, facts, reactions, held, cutoff, |reactions|, k);
      NextEnds(facts, reactions[k], before, cutoff, after);
    }
    forall topic: Topic | forall k :: 0 <= k < |reactions| ==> reactions[k].topic != topic || topic in held
      ensures Delivery.CursorIn(after.cursors, topic) == Delivery.CursorIn(before.cursors, topic)
    {
      DispatchedCursor(before, facts, reactions, held, cutoff, |reactions|, topic);
    }
  }

  ghost predicate IsUnread(memory: Spread.Memory, facts: seq<Fact>, kinds: set<Kind>, f: Fact) {
    f in facts && Wants(memory.cursor, kinds, f) && f.key !in memory.applied
  }

  /** What `ReadSpread` returns is just the unread facts. */
  lemma ReadsUnread(before: Spread.Memory, facts: seq<Fact>, kinds: set<Kind>)
    requires Sorted(facts)
    ensures forall f :: f in Spread.Fresh(FactsAbove(facts, before.cursor, kinds), before.applied)
                   <==> IsUnread(before, facts, kinds, f)
  {
    FactsAboveMembers(facts, before.cursor, kinds);
    Spread.FreshMembers(FactsAbove(facts, before.cursor, kinds), before.applied);
  }

  /** What it remembers is the end of the settled prefix, and the visible facts beyond it. */
  lemma ReadRemembers(before: Spread.Memory, facts: seq<Fact>, kinds: set<Kind>, cutoff: int)
    requires Sorted(facts)
    ensures var after := Spread.Remember(FactsAbove(facts, before.cursor, kinds), cutoff, before.cursor);
            && EndsSettledPrefix(facts, before.cursor, kinds, cutoff, after.cursor)
            && (forall f :: f in facts && Wants(after.cursor, kinds, f) ==> f.key in after.applied)
            && (forall k :: k in after.applied ==>
                  exists f :: f in facts && Wants(after.cursor, kinds, f) && f.key == k)
  {
    var found := FactsAbove(facts, before.cursor, kinds);
    var next := NextCursor(found, cutoff, before.cursor);
    NextCursorEndsSettledPrefix(facts, before.cursor, kinds, cutoff);
    FactsAboveMembers(facts, before.cursor, kinds);
    NextCursorIsSettled(facts, before.cursor, kinds, cutoff);
    Beyond(facts, before.cursor, kinds, found, next);
  }

  lemma Beyond(facts: seq<Fact>, cursor: Key, kinds: set<Kind>, found: seq<Fact>, next: Key)
    requires forall f :: f in found <==> f in facts && Wants(cursor, kinds, f)
    requires AtOrBelow(cursor, next)
    ensures forall f :: f in facts && Wants(next, kinds, f) <==> f in found && Below(next, f.key)
  {
    forall f | f in facts && Wants(next, kinds, f) ensures f in found {
      assert Wants(cursor, kinds, f);
    }
  }

  /** What a session sees of the three tables a tick writes. */
  datatype View = View(cursors: map<Topic, Key>, ledger: set<Pair>, tasks: seq<Pair>)

  /** `after` is `before` with the writes of `tick`; a missing cursor row reads as the nil row. */
  ghost predicate Wrote(before: View, tick: Delivery.Tick, after: View) {
    && (forall t: Topic :: Delivery.CursorIn(after.cursors, t) == Delivery.CursorIn(before.cursors + tick.cursors, t))
    && after.ledger == before.ledger + Delivery.AsSet(tick.pairs)
    && after.tasks == before.tasks + tick.pairs
  }

  /** The tables once reaction `r` is ticked: untouched but for its row when another session holds the
      topic. */
  function Ticked(before: View, facts: seq<Fact>, r: Reaction, held: set<Topic>, cutoff: int): View {
    var cursor := Delivery.CursorIn(before.cursors, r.topic);
    if r.topic in held then before.(cursors := before.cursors[r.topic := cursor])
    else
      var d := Delivery.DispatchTopic(facts, r.kinds, cutoff, cursor, r.topic, before.ledger);
      View(before.cursors[r.topic := d.cursor], before.ledger + Delivery.AsSet(d.pairs), before.tasks + d.pairs)
  }

  /** The tables once the first `n` reactions are. */
  function Dispatched(
    before: View, facts: seq<Fact>, reactions: seq<Reaction>, held: set<Topic>, cutoff: int, n: nat): View
    requires n <= |reactions|
  {
    if n == 0 then before
    else Ticked(Dispatched(before, facts, reactions, held, cutoff, n - 1), facts, reactions[n - 1], held, cutoff)
  }

  lemma WroteNext(start: View, done: Delivery.Tick, before: View, topic: Topic, d: Delivery.Dispatch)
    requires Wrote(start, done, before)
    ensures Wrote(start, done.(cursors := done.cursors[topic := d.cursor], pairs := done.pairs + d.pairs),
                  View(before.cursors[topic := d.cursor],
                       before.ledger + Delivery.AsSet(d.pairs), before.tasks + d.pairs))
  {
    var cursors := before.cursors[topic := d.cursor];
    forall t: Topic
      ensures Delivery.CursorIn(cursors, t) == Delivery.CursorIn(start.cursors + done.cursors[topic := d.cursor], t)
    {
      assert Delivery.CursorIn(before.cursors, t) == Delivery.CursorIn(start.cursors + done.cursors, t);
    }
    assert Delivery.AsSet(done.pairs + d.pairs) == Delivery.AsSet(done.pairs) + Delivery.AsSet(d.pairs);
  }

  lemma WroteRow(start: View, done: Delivery.Tick, before: View, topic: Topic)
    requires Wrote(start, done, before)
    ensures Wrote(start, done, before.(cursors := before.cursors[topic := Delivery.CursorIn(before.cursors, topic)]))
  {
    var cursors := before.cursors[topic := Delivery.CursorIn(before.cursors, topic)];
    forall t: Topic
      ensures Delivery.CursorIn(cursors, t) == Delivery.CursorIn(start.cursors + done.cursors, t)
    {
      assert Delivery.CursorIn(before.cursors, t) == Delivery.CursorIn(start.cursors + done.cursors, t);
    }
  }

  /** The next reaction: its cursor and its part of the ledger are still as the tick found them. */
  lemma BacklogNext(
    tick: Delivery.Tick, facts: seq<Fact>, settle: nat, cursors: map<Topic, Key>, ledger: set<Pair>,
    reactions: seq<Reaction>, held: set<Topic>, n: nat, d: Delivery.Dispatch)
    requires Sorted(facts) && DistinctTopics(reactions) && n < |reactions|
    requires tick.pairs == [] && tick.cursors == map[]
    requires var done := BacklogTick(tick, facts, settle, cursors, ledger, reactions, held, n);
             var r := reactions[n];
             d == Delivery.DispatchTopic(facts, r.kinds, tick.started - settle, Delivery.CursorIn(cursors, r.topic),
                                         r.topic, ledger + Delivery.AsSet(done.pairs))
    ensures var done := BacklogTick(tick, facts, settle, cursors, ledger, reactions, held, n);
            var r := reactions[n];
            && r.topic !in done.cursors
            && BacklogTick(tick, facts, settle, cursors, ledger, reactions, held, n + 1)
               == if r.topic in held then done
                  else done.(cursors := done.cursors[r.topic := d.cursor], pairs := done.pairs + d.pairs)
  {
    var done := BacklogTick(tick, facts, settle, cursors, ledger, reactions, held, n);
    var r := reactions[n];
    BacklogTickTopics(tick, facts, settle, cursors, ledger, reactions, held, n);
    UndispatchedIgnoresOthers(FactsAbove(facts, Delivery.CursorIn(cursors, r.topic), r.kinds), r.topic, ledger,
                              Delivery.AsSet(done.pairs));
  }

  lemma TickedNext(
    start: View, tick: Delivery.Tick, facts: seq<Fact>, settle: nat, reactions: seq<Reaction>, held: set<Topic>,
    n: nat, before: View)
    requires Sorted(facts) && DistinctTopics(reactions) && n < |reactions|
    requires tick.pairs == [] && tick.cursors == map[]
    requires Wrote(start, BacklogTick(tick, facts, settle, start.cursors, start.ledger, reactions, held, n), before)
    ensures Wrote(start, BacklogTick(tick, facts, settle, start.cursors, start.ledger, reactions, held, n + 1),
                  Ticked(before, facts, reactions[n], held, tick.started - settle))
  {
    var done := BacklogTick(tick, facts, settle, start.cursors, start.ledger, reactions, held, n);
    var r := reactions[n];
    var cursor := Delivery.CursorIn(start.cursors, r.topic);
    var d := Delivery.DispatchTopic(facts, r.kinds, tick.started - settle, cursor, r.topic, before.ledger);
    BacklogNext(tick, facts, settle, start.cursors, start.ledger, reactions, held, n, d);
    assert Delivery.CursorIn(before.cursors, r.topic) == cursor;
    assert Delivery.CursorIn(start.cursors + done.cursors, r.topic) == cursor;
    if r.topic in held {
      WroteRow(start, done, before, r.topic);
    } else {
      WroteNext(start, done, before, r.topic, d);
    }
  }

  /** What the loop leaves is what the machine's open tick holds. */
  lemma {:induction false} DispatchedIsBacklog(
    start: View, tick: Delivery.Tick, facts: seq<Fact>, settle: nat, reactions: seq<Reaction>, held: set<Topic>,
    n: nat)
    requires Sorted(facts) && DistinctTopics(reactions) && n <= |reactions|
    requires tick.pairs == [] && tick.cursors == map[]
    ensures Wrote(start, BacklogTick(tick, facts, settle, start.cursors, start.ledger, reactions, held, n),
                  Dispatched(start, facts, reactions, held, tick.started - settle, n))
  {
    if n == 0 {
      assert start.cursors + tick.cursors == start.cursors && start.ledger + Delivery.AsSet([]) == start.ledger;
    } else {
      DispatchedIsBacklog(start, tick, facts, settle, reactions, held, n - 1);
      TickedNext(start, tick, facts, settle, reactions, held, n - 1,
                 Dispatched(start, facts, reactions, held, tick.started - settle, n - 1));
    }
  }

  class EventListener {
    const settle: nat
    var spreadCursor: Option<Key>
    var spreadApplied: set<Key>

    constructor (settle: nat)
      ensures this.settle == settle && Memory() == Spread.Memory(NIL, {})
    {
      this.settle, spreadCursor, spreadApplied := settle, None, {};
    }

    function Memory(): Spread.Memory
      reads this
    {
      Spread.Memory(match spreadCursor case None => NIL case Some(c) => c, spreadApplied)
    }

    /** One topic's backlog, unless another instance holds the topic: every fact above the cursor goes
        through the ledger, and the cursor moves to the end of the settled prefix. */
    method DispatchReaction(db: Store, r: Reaction, held: set<Topic>, started: nat)
      requires Sorted(db.facts)
      modifies db`cursors, db`ledger, db`tasks
      ensures db.Rows() == Ticked(old(db.Rows()), db.facts, r, held, started - settle)
    {
      var locked := db.LockDispatchCursor(r.topic, held);
      if locked.None? {
        return;
      }
      var cursor := locked.value;
      var found := FactsAbove(db.facts, cursor, r.kinds);
      var next := NextCursor(found, started - settle, cursor);
      FactsAboveMembers(db.facts, cursor, r.kinds);
      DispatchFound(db, r.topic, found);
      if next != cursor {
        db.AdvanceDispatchCursor(r.topic, next);
      }
    }

    method DispatchFound(db: Store, topic: Topic, found: seq<Fact>)
      requires Sorted(found)
      modifies db`ledger, db`tasks
      ensures db.ledger == old(db.ledger) + Delivery.AsSet(Delivery.Undispatched(found, topic, old(db.ledger)))
      ensures db.tasks == old(db.tasks) + Delivery.Undispatched(found, topic, old(db.ledger))
    {
      ghost var ledger := db.ledger;
      ghost var done: seq<Pair> := [];
      for k := 0 to |found|
        invariant done == Delivery.Undispatched(found[..k], topic, ledger)
        invariant db.ledger == ledger + Delivery.AsSet(done)
        invariant db.tasks == old(db.tasks) + done
      {
        UndispatchedNext(found, topic, ledger, k);
        var first := db.DispatchConsumer(found[k].key, topic);
        if first {
          db.Enqueue(topic, found[k].key);
          done := done + [(found[k].key, topic)];
        }
      }
      assert found[..|found|] == found;
    }

    /** Every reaction of this instance's wiring, each off its own cursor, skipping the topics another
        instance holds. */
    method DispatchBacklog(db: Store, reactions: seq<Reaction>, held: set<Topic>, started: nat)
      requires Sorted(db.facts)
      modifies db`cursors, db`ledger, db`tasks
      ensures db.Rows() == Dispatched(old(db.Rows()), db.facts, reactions, held, started - settle, |reactions|)
    {
      for n := 0 to |reactions|
        invariant db.Rows() == Dispatched(old(db.Rows()), db.facts, reactions, held, started - settle, n)
      {
        DispatchReaction(db, reactions[n], held, started);
      }
    }

    /** The spread facts not yet applied; the cursor and the applied set move at once, before the
        caller commits. */
    method ReadSpread(facts: seq<Fact>, kinds: set<Kind>, started: nat) returns (toApply: seq<Fact>)
      requires Sorted(facts)
      modifies this`spreadCursor, this`spreadApplied
      ensures kinds != {} ==>
                && toApply == Spread.Fresh(FactsAbove(facts, old(Memory()).cursor, kinds), old(Memory()).applied)
                && Memory() == Spread.Remember(FactsAbove(facts, old(Memory()).cursor, kinds), started - settle,
                                               old(Memory()).cursor)
      ensures kinds == {} ==> toApply == [] && Memory() == old(Memory())
    {
      if kinds == {} {
        return [];
      }
      var cursor := match spreadCursor case None => NIL case Some(c) => c;
      var found := FactsAbove(facts, cursor, kinds);
      var settled := NextCursor(found, started - settle, cursor);
      toApply := Spread.Fresh(found, spreadApplied);
      spreadCursor := Some(settled);
      spreadApplied := set f | f in found && Below(settled, f.key) :: f.key;
    }
  }

  /** The method's writes are the machine's: ticking each free topic in turn, from a transaction just
      begun, leaves the open tick `DispatchBacklog` describes. */
  lemma {:induction false} BacklogIsTickTopics(
    s: Delivery.State, g: Limits, wiring: Delivery.Wiring, i: nat, reactions: seq<Reaction>, held: set<Topic>, n: nat)
    returns (acts: seq<Delivery.Act>)
    requires n <= |reactions| && i in s.ticks && s.ticks[i].cursors == map[] && s.ticks[i].pairs == []
    requires Sorted(s.log.facts) && DistinctTopics(reactions)
    requires forall r :: r in reactions ==> r.topic in wiring && wiring[r.topic] == r.kinds
    requires forall j, topic :: j in s.ticks && topic in s.ticks[j].cursors ==> topic in held
    ensures Delivery.IsRun(s, g, wiring, acts)
    ensures var tick := BacklogTick(s.ticks[i], s.log.facts, g.settle, s.cursors, s.ledger, reactions, held, n);
            Delivery.After(s, g, wiring, acts) == s.(ticks := s.ticks[i := tick])
    decreases n
  {
    if n == 0 {
      acts := [];
      assert s.ticks[i := s.ticks[i]] == s.ticks;
    } else {
      var r := reactions[n - 1];
      acts := BacklogIsTickTopics(s, g, wiring, i, reactions, held, n - 1);
      if r.topic !in held {
        var t := Delivery.After(s, g, wiring, acts);
        BacklogTickTopics(s.ticks[i], s.log.facts, g.settle, s.cursors, s.ledger, reactions, held, n - 1);
        assert r in reactions;
        var act := Delivery.TickTopic(i, r.topic);
        assert Delivery.Enabled(t, g, wiring, act);
        var u := Delivery.Apply(t, g, wiring, act);
        assert Delivery.IsRun(u, g, wiring, []);
        Delivery.UnrollRun(t, g, wiring, act, []);
        assert [act] + [] == [act];
        Delivery.RunConcat(s, g, wiring, acts, [act]);
        acts := acts + [act];
        assert u.ticks == s.ticks[i := u.ticks[i]];
      }
    }
  }
}
