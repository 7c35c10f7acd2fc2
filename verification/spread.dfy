/** The other half of the tick: `spread` handlers, replayed on one instance off a cursor and a set of
    applied keys that live only in its memory. */
module Spread {
  import opened Journal

  /** `_spread_cursor` (nil until the first tick) and `_spread_applied`. */
  datatype Memory = Memory(cursor: Key, applied: set<Key>)

  function Keys(facts: seq<Fact>): seq<Key> {
    seq(|facts|, i requires 0 <= i < |facts| => facts[i].key)
  }

  ghost predicate Distinct(keys: seq<Key>) {
    forall i, j :: 0 <= i < j < |keys| ==> keys[i] != keys[j]
  }

  /** The facts of `found` not yet applied, in order. */
  function Fresh(found: seq<Fact>, applied: set<Key>): seq<Fact> {
    if found == [] then []
    else (if found[0].key in applied then [] else [found[0]]) + Fresh(found[1..], applied)
  }

  /** What the instance remembers after reading: keys at or below the cursor are forgotten. */
  function Remember(found: seq<Fact>, cutoff: int, cursor: Key): Memory {
    var next := NextCursor(found, cutoff, cursor);
    Memory(next, set f | f in found && Below(next, f.key) :: f.key)
  }

  lemma {:induction false} FreshMembers(found: seq<Fact>, applied: set<Key>)
    requires Sorted(found)
    ensures forall f :: f in Fresh(found, applied) <==> f in found && f.key !in applied
    ensures Sorted(Fresh(found, applied))
  {
    if found != [] {
      assert found == [found[0]] + found[1..];
      FreshMembers(found[1..], applied);
      var rest := Fresh(found[1..], applied);
      forall i | 0 <= i < |rest|
        ensures Below(found[0].key, rest[i].key)
      {
        assert rest[i] in found[1..];
      }
    }
  }

  lemma KeysMembers(facts: seq<Fact>)
    requires Sorted(facts)
    ensures forall f :: f in facts ==> f.key in Keys(facts)
    ensures forall k :: k in Keys(facts) ==> exists f :: f in facts && f.key == k
    ensures Distinct(Keys(facts))
  {
    forall f | f in facts ensures f.key in Keys(facts) {
      var i :| 0 <= i < |facts| && facts[i] == f;
      assert Keys(facts)[i] == f.key;
    }
    forall k | k in Keys(facts) ensures exists f :: f in facts && f.key == k {
      var i :| 0 <= i < |facts| && Keys(facts)[i] == k;
      assert facts[i] in facts;
    }
  }

  // ── The machine: the writers, and one instance's ticks among them ─────────────────────────────

  /** `ran` lists the facts whose handlers this instance ran, in order; `lost` holds those a tick read
      unread and then failed to commit, so that their handlers never ran. */
  datatype State = State(log: Log, mem: Memory, ran: seq<Key>, lost: set<Key>)

  /** A tick whose transaction began at `started`, and whether that transaction commits. */
  datatype Act = Journal(act: Journal.Act) | Tick(started: nat, commits: bool)

  ghost predicate Enabled(s: State, g: Limits, a: Act) {
    match a
    case Journal(act) => Journal.Enabled(s.log, g, act)
    case Tick(started, _) => started <= s.log.now
  }

  /** The keys a tick would read for the first time. */
  function UnreadKeys(s: State, kinds: set<Kind>): seq<Key> {
    Keys(Fresh(FactsAbove(s.log.facts, s.mem.cursor, kinds), s.mem.applied))
  }

  function Apply(s: State, g: Limits, kinds: set<Kind>, a: Act): State {
    match a
    case Journal(act) => s.(log := Journal.Apply(s.log, act))
    case Tick(started, commits) =>
      var found := FactsAbove(s.log.facts, s.mem.cursor, kinds);
      var unread := UnreadKeys(s, kinds);
      var mem := Remember(found, started - g.settle, s.mem.cursor);
      if commits then s.(mem := mem, ran := s.ran + unread)
      else s.(mem := mem, lost := s.lost + set k | k in unread)
  }

  function Init(log: Log): State { State(log, Memory(NIL, {}), [], {}) }

  ghost predicate IsRun(s: State, g: Limits, kinds: set<Kind>, acts: seq<Act>)
    decreases |acts|
  {
    acts == [] || (Enabled(s, g, acts[0]) && IsRun(Apply(s, g, kinds, acts[0]), g, kinds, acts[1..]))
  }

  function After(s: State, g: Limits, kinds: set<Kind>, acts: seq<Act>): State
    decreases |acts|
  {
    if acts == [] then s else After(Apply(s, g, kinds, acts[0]), g, kinds, acts[1..])
  }

  // ── What every run keeps ──────────────────────────────────────────────────────────────────────

  ghost predicate Known(s: State, kinds: set<Kind>, k: Key) {
    exists f :: f in s.log.facts && f.kind in kinds && f.key == k
  }

  ghost predicate Read(s: State, k: Key) { k in s.ran || k in s.lost }

  ghost predicate Inv(s: State, g: Limits, kinds: set<Kind>) {
    && Valid(s.log, g)
    && (forall k :: k in s.mem.applied ==> Below(s.mem.cursor, k) && Read(s, k))
    && (forall k :: Read(s, k) ==> Known(s, kinds, k))
    && (forall k :: Read(s, k) ==> AtOrBelow(k, s.mem.cursor) || k in s.mem.applied)
    && Distinct(s.ran)
    && (forall k :: k in s.ran ==> k !in s.lost)
  }

  ghost predicate Complete(s: State, g: Limits, kinds: set<Kind>) {
    && Sealed(s.log, g, s.mem.cursor)
    && (forall f :: f in s.log.facts ==> Below(NIL, f.key))
    && (forall f :: f in s.log.facts && f.kind in kinds && AtOrBelow(f.key, s.mem.cursor) ==> Read(s, f.key))
  }

  lemma WritersKeep(s: State, g: Limits, kinds: set<Kind>, act: Journal.Act)
    requires Inv(s, g, kinds) && Journal.Enabled(s.log, g, act)
    ensures Inv(Apply(s, g, kinds, Journal(act)), g, kinds)
    ensures Complete(s, g, kinds) ==> Complete(Apply(s, g, kinds, Journal(act)), g, kinds)
  {
    var t := Apply(s, g, kinds, Journal(act));
    ApplyKeepsValid(s.log, g, act);
    if act.Commit? {
      PlaceAllIsSorted(s.log.facts, s.log.writers[act.w].facts);
    }
    forall f, c | f in t.log.facts && f !in s.log.facts && Sealed(s.log, g, c)
      ensures Below(c, f.key)
    {
      SurfacesAboveSealed(s.log, g, act, c, f);
    }
    forall k | Read(t, k)
      ensures Known(t, kinds, k)
    {
      assert Known(s, kinds, k);
      var f :| f in s.log.facts && f.kind in kinds && f.key == k;
      assert f in t.log.facts;
    }
  }

  /** What a tick reads for the first time, no earlier tick read. */
  lemma FreshIsUnread(s: State, g: Limits, kinds: set<Kind>)
    requires Inv(s, g, kinds)
    ensures var unread := UnreadKeys(s, kinds);
            && (forall k :: k in unread ==> !Read(s, k))
            && Distinct(unread)
            && (forall f :: f in s.log.facts && f.kind in kinds && Below(s.mem.cursor, f.key)
                       ==> f.key in unread || f.key in s.mem.applied)
            && (forall k :: k in unread ==> Below(s.mem.cursor, k) && Known(s, kinds, k))
  {
    FactsAboveMembers(s.log.facts, s.mem.cursor, kinds);
    var found := FactsAbove(s.log.facts, s.mem.cursor, kinds);
    FreshMembers(found, s.mem.applied);
    KeysMembers(Fresh(found, s.mem.applied));
    forall f | f in s.log.facts && f.kind in kinds && Below(s.mem.cursor, f.key) && f.key !in s.mem.applied
      ensures f.key in Keys(Fresh(found, s.mem.applied))
    {
      assert f in found;
    }
  }

  lemma TickKeepsReads(s: State, g: Limits, kinds: set<Kind>, started: nat, commits: bool)
    requires Inv(s, g, kinds)
    ensures var t := Apply(s, g, kinds, Tick(started, commits));
            && Distinct(t.ran)
            && (forall k :: k in t.ran ==> k !in t.lost)
            && (forall k :: Read(t, k) <==> (Read(s, k) || k in UnreadKeys(s, kinds)))
  {
    FreshIsUnread(s, g, kinds);
    var t := Apply(s, g, kinds, Tick(started, commits));
    forall i, j | 0 <= i < j < |t.ran|
      ensures t.ran[i] != t.ran[j]
    {
      if i < |s.ran| <= j {
        assert t.ran[i] in s.ran && t.ran[j] in UnreadKeys(s, kinds);
      }
    }
  }

  lemma TickKeepsInv(s: State, g: Limits, kinds: set<Kind>, started: nat, commits: bool)
    requires Inv(s, g, kinds) && started <= s.log.now
    ensures Inv(Apply(s, g, kinds, Tick(started, commits)), g, kinds)
  {
    var t := Apply(s, g, kinds, Tick(started, commits));
    var found := FactsAbove(s.log.facts, s.mem.cursor, kinds);
    FactsAboveMembers(s.log.facts, s.mem.cursor, kinds);
    FreshIsUnread(s, g, kinds);
    TickKeepsReads(s, g, kinds, started, commits);
    NextCursorIsSettled(s.log.facts, s.mem.cursor, kinds, started - g.settle);
    forall k | k in t.mem.applied
      ensures Below(t.mem.cursor, k) && Read(t, k)
    {
      var f :| f in found && f.key == k && Below(t.mem.cursor, k);
    }
    forall k | Read(t, k)
      ensures Known(t, kinds, k) && (AtOrBelow(k, t.mem.cursor) || k in t.mem.applied)
    {
      assert Known(s, kinds, k);
      if Below(t.mem.cursor, k) {
        assert Known(s, kinds, k);
        var f :| f in s.log.facts && f.kind in kinds && f.key == k;
        assert f in found;
      }
    }
  }

  lemma TickKeepsComplete(s: State, g: Limits, kinds: set<Kind>, started: nat, commits: bool)
    requires g.Covered() && Inv(s, g, kinds) && Complete(s, g, kinds) && started <= s.log.now
    ensures Complete(Apply(s, g, kinds, Tick(started, commits)), g, kinds)
  {
    NextCursorIsSealed(s.log, g, s.mem.cursor, kinds, started);
    var t := Apply(s, g, kinds, Tick(started, commits));
    assert t.log == s.log;
    forall f | f in t.log.facts && f.kind in kinds && AtOrBelow(f.key, t.mem.cursor)
      ensures Read(t, f.key)
    {
      TickReads(s, g, kinds, started, commits, f);
    }
  }

  /** Every committed fact of the kinds has been read once a tick has gone over the journal. */
  lemma TickReads(s: State, g: Limits, kinds: set<Kind>, started: nat, commits: bool, f: Fact)
    requires Inv(s, g, kinds) && Complete(s, g, kinds) && f in s.log.facts && f.kind in kinds
    ensures Read(Apply(s, g, kinds, Tick(started, commits)), f.key)
  {
    FreshIsUnread(s, g, kinds);
    TickKeepsReads(s, g, kinds, started, commits);
    if Below(s.mem.cursor, f.key) {
      assert f.key in UnreadKeys(s, kinds) || f.key in s.mem.applied;
    }
  }

  lemma {:induction false} RunKeepsInv(s: State, g: Limits, kinds: set<Kind>, acts: seq<Act>)
    requires Inv(s, g, kinds) && IsRun(s, g, kinds, acts)
    ensures Inv(After(s, g, kinds, acts), g, kinds)
    ensures g.Covered() && Complete(s, g, kinds) ==> Complete(After(s, g, kinds, acts), g, kinds)
    ensures s.lost <= After(s, g, kinds, acts).lost
    ensures (forall a :: a in acts && a.Tick? ==> a.commits) ==> After(s, g, kinds, acts).lost == s.lost
    decreases |acts|
  {
    if acts != [] {
      assert acts[0] in acts;
      assert forall a :: a in acts[1..] ==> a in acts;
      match acts[0] {
        case Journal(act) => WritersKeep(s, g, kinds, act);
        case Tick(started, commits) =>
          TickKeepsInv(s, g, kinds, started, commits);
          if g.Covered() && Complete(s, g, kinds) {
            TickKeepsComplete(s, g, kinds, started, commits);
          }
      }
      RunKeepsInv(Apply(s, g, kinds, acts[0]), g, kinds, acts[1..]);
    }
  }

  // ── Main results, for an instance started on any journal the writers can have left ───────────

  /** No fact's handlers run twice on one instance, and the applied set stays bounded by what lies
      above the cursor, whatever commits or fails. */
  lemma HandlersRunAtMostOnce(log: Log, g: Limits, kinds: set<Kind>, acts: seq<Act>)
    requires Valid(log, g) && IsRun(Init(log), g, kinds, acts)
    ensures var s := After(Init(log), g, kinds, acts);
            && Distinct(s.ran)
            && (forall k :: k in s.mem.applied ==> Below(s.mem.cursor, k))
  {
    RunKeepsInv(Init(log), g, kinds, acts);
  }

  /** Every committed spread fact at or below the cursor either ran, or was read by a tick that then
      failed to commit; never both. When every tick commits, all of them ran. */
  lemma HandlersMissOnlyFailedTicks(log: Log, g: Limits, kinds: set<Kind>, acts: seq<Act>)
    requires g.Covered() && Valid(log, g) && IsRun(Init(log), g, kinds, acts)
    ensures var s := After(Init(log), g, kinds, acts);
            && (forall f :: f in s.log.facts && f.kind in kinds && AtOrBelow(f.key, s.mem.cursor)
                       ==> (f.key in s.ran <==> f.key !in s.lost))
            && ((forall a :: a in acts && a.Tick? ==> a.commits) ==> s.lost == {})
  {
    RunKeepsInv(Init(log), g, kinds, acts);
  }

  /** A fact first read by a tick that fails to commit is never run by this instance, then or later. */
  lemma FailedTickLosesItsFacts(
    log: Log, g: Limits, kinds: set<Kind>, before: seq<Act>, started: nat, after: seq<Act>, k: Key)
    requires Valid(log, g) && IsRun(Init(log), g, kinds, before)
    requires var s := After(Init(log), g, kinds, before);
             && k in UnreadKeys(s, kinds) && started <= s.log.now
             && IsRun(Apply(s, g, kinds, Tick(started, false)), g, kinds, after)
    ensures var failed := Apply(After(Init(log), g, kinds, before), g, kinds, Tick(started, false));
            k !in After(failed, g, kinds, after).ran
  {
    RunKeepsInv(Init(log), g, kinds, before);
    var s := After(Init(log), g, kinds, before);
    TickKeepsInv(s, g, kinds, started, false);
    RunKeepsInv(Apply(s, g, kinds, Tick(started, false)), g, kinds, after);
  }

  // ── Which facts run, exactly ──────────────────────────────────────────────────────────────────

  /** What the failed ticks of a run read unread. */
  ghost function FailedReads(s: State, g: Limits, kinds: set<Kind>, acts: seq<Act>): set<Key>
    decreases |acts|
  {
    if acts == [] then {}
    else
      (if acts[0].Tick? && !acts[0].commits then set k | k in UnreadKeys(s, kinds) else {})
      + FailedReads(Apply(s, g, kinds, acts[0]), g, kinds, acts[1..])
  }

  lemma {:induction false} LostToFailedReads(s: State, g: Limits, kinds: set<Kind>, acts: seq<Act>)
    ensures After(s, g, kinds, acts).lost == s.lost + FailedReads(s, g, kinds, acts)
    decreases |acts|
  {
    if acts != [] {
      LostToFailedReads(Apply(s, g, kinds, acts[0]), g, kinds, acts[1..]);
    }
  }

  /** On every run, all spread facts at or below the cursor ran if and only if no failed tick read one of
      them unread. */
  lemma AllRanIffNoFailedRead(log: Log, g: Limits, kinds: set<Kind>, acts: seq<Act>)
    requires g.Covered() && Valid(log, g) && IsRun(Init(log), g, kinds, acts)
    ensures var s := After(Init(log), g, kinds, acts);
            (forall f :: f in s.log.facts && f.kind in kinds && AtOrBelow(f.key, s.mem.cursor) ==> f.key in s.ran)
              <==> (forall k :: k in FailedReads(Init(log), g, kinds, acts) ==> !AtOrBelow(k, s.mem.cursor))
  {
    RunKeepsInv(Init(log), g, kinds, acts);
    LostToFailedReads(Init(log), g, kinds, acts);
    var s := After(Init(log), g, kinds, acts);
    forall k | k in s.lost && AtOrBelow(k, s.mem.cursor)
      ensures exists f :: f in s.log.facts && f.kind in kinds && AtOrBelow(f.key, s.mem.cursor) && f.key !in s.ran
    {
      assert Read(s, k);
      var f :| f in s.log.facts && f.kind in kinds && f.key == k;
      assert f.key !in s.ran;
    }
  }

  lemma RunCons(s: State, g: Limits, kinds: set<Kind>, a: Act, rest: seq<Act>)
    requires Enabled(s, g, a) && IsRun(Apply(s, g, kinds, a), g, kinds, rest)
    ensures IsRun(s, g, kinds, [a] + rest)
    ensures After(s, g, kinds, [a] + rest) == After(Apply(s, g, kinds, a), g, kinds, rest)
  {
    assert ([a] + rest)[1..] == rest;
  }

  function FirstFact(kind: Kind): Fact { Fact(Key(0, 1), kind, 0) }

  /** One fact committed... */
  function WriteActs(kind: Kind): seq<Act> {
    [Act.Journal(Begin(0))] + ([Act.Journal(Insert(0, kind, 1))] + [Act.Journal(Commit(0))])
  }

  /** ... read by a tick that fails, and passed by one that commits once it has settled. */
  function TickActs(settle: nat): seq<Act> {
    [Tick(0, false)] + ([Act.Journal(Elapse(settle + 1))] + [Tick(settle + 1, true)])
  }

  function Written(kind: Kind): State { State(Log(0, map[], [FirstFact(kind)]), Memory(NIL, {}), [], {}) }

  lemma WriteRuns(g: Limits, kinds: set<Kind>, kind: Kind)
    ensures IsRun(Init(Log(0, map[], [])), g, kinds, WriteActs(kind))
    ensures After(Init(Log(0, map[], [])), g, kinds, WriteActs(kind)) == Written(kind)
  {
    var s0 := Init(Log(0, map[], []));
    var begin, insert, commit := Act.Journal(Begin(0)), Act.Journal(Insert(0, kind, 1)), Act.Journal(Commit(0));
    var s1 := Apply(s0, g, kinds, begin);
    var s2 := Apply(s1, g, kinds, insert);
    assert s2.log.writers[0].facts == [FirstFact(kind)] by { assert [] + [FirstFact(kind)] == [FirstFact(kind)]; }
    PlaceAllOne([], FirstFact(kind));
    assert Apply(s2, g, kinds, commit) == Written(kind);
    RunCons(s2, g, kinds, commit, []);
    assert [commit] + [] == [commit];
    RunCons(s1, g, kinds, insert, [commit]);
    RunCons(s0, g, kinds, begin, [insert] + [commit]);
  }

  function AfterFailure(kind: Kind, now: nat): State {
    State(Log(now, map[], [FirstFact(kind)]), Memory(NIL, {FirstFact(kind).key}), [], {FirstFact(kind).key})
  }

  lemma FailedTickReads(g: Limits, kinds: set<Kind>, kind: Kind)
    requires kind in kinds
    ensures Apply(Written(kind), g, kinds, Tick(0, false)) == AfterFailure(kind, 0)
  {
    var fact := FirstFact(kind);
    OneFact(fact, kinds, 0 - g.settle);
    assert Remember([fact], 0 - g.settle, NIL) == Memory(NIL, {fact.key});
    assert (set k | k in [fact.key]) == {fact.key};
  }

  lemma LaterTickPasses(g: Limits, kinds: set<Kind>, kind: Kind)
    requires kind in kinds
    ensures var s := Apply(AfterFailure(kind, g.settle + 1), g, kinds, Tick(g.settle + 1, true));
            s.log.facts == [FirstFact(kind)] && s.mem.cursor == FirstFact(kind).key && s.ran == []
  {
    OneFact(FirstFact(kind), kinds, 1);
    assert Keys([]) == [];
  }

  lemma TicksRun(g: Limits, kinds: set<Kind>, kind: Kind)
    requires kind in kinds
    ensures IsRun(Written(kind), g, kinds, TickActs(g.settle))
    ensures var s := After(Written(kind), g, kinds, TickActs(g.settle));
            s.log.facts == [FirstFact(kind)] && s.mem.cursor == FirstFact(kind).key && s.ran == []
  {
    var elapse, last := Act.Journal(Elapse(g.settle + 1)), Tick(g.settle + 1, true);
    FailedTickReads(g, kinds, kind);
    LaterTickPasses(g, kinds, kind);
    RunCons(AfterFailure(kind, g.settle + 1), g, kinds, last, []);
    assert [last] + [] == [last];
    RunCons(AfterFailure(kind, 0), g, kinds, elapse, [last]);
    RunCons(Written(kind), g, kinds, Tick(0, false), [elapse] + [last]);
  }

  lemma {:induction false} RunsInTurn(s: State, g: Limits, kinds: set<Kind>, first: seq<Act>, second: seq<Act>)
    requires IsRun(s, g, kinds, first) && IsRun(After(s, g, kinds, first), g, kinds, second)
    ensures IsRun(s, g, kinds, first + second)
    ensures After(s, g, kinds, first + second) == After(After(s, g, kinds, first), g, kinds, second)
    decreases |first|
  {
    if first == [] {
      assert first + second == second;
    } else {
      RunsInTurn(Apply(s, g, kinds, first[0]), g, kinds, first[1..], second);
      assert first + second == [first[0]] + (first[1..] + second);
      RunCons(s, g, kinds, first[0], first[1..] + second);
    }
  }

  /** Whatever the window and the delays, a run leaves a committed fact below the cursor whose handlers
      never ran: a failed tick read it. */
  lemma FailedTickRun(g: Limits, kinds: set<Kind>, kind: Kind) returns (acts: seq<Act>)
    requires kind in kinds
    ensures Valid(Log(0, map[], []), g) && IsRun(Init(Log(0, map[], [])), g, kinds, acts)
    ensures var s := After(Init(Log(0, map[], [])), g, kinds, acts);
            FirstFact(kind) in s.log.facts && AtOrBelow(FirstFact(kind).key, s.mem.cursor) && s.ran == []
  {
    WriteRuns(g, kinds, kind);
    TicksRun(g, kinds, kind);
    RunsInTurn(Init(Log(0, map[], [])), g, kinds, WriteActs(kind), TickActs(g.settle));
    acts := WriteActs(kind) + TickActs(g.settle);
  }

  lemma OneFact(fact: Fact, kinds: set<Kind>, cutoff: int)
    requires fact.kind in kinds && Below(NIL, fact.key) && fact.createdAt == 0
    ensures FactsAbove([fact], NIL, kinds) == [fact]
    ensures NextCursor([fact], cutoff, NIL) == if cutoff > 0 then fact.key else NIL
    ensures Fresh([fact], {}) == [fact] && Fresh([fact], {fact.key}) == [] && Keys([fact]) == [fact.key]
  {
    assert [fact][1..] == [];
  }
}
