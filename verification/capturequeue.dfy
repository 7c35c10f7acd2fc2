/** The capture queue and its trackers as they run: the loops of `_shed` and `_deliver`, proved against
    the functions of `Capture`. */
module CaptureQueue {
  import opened Capture

  lemma {:induction false} CountSnoc(queue: seq<Captured>, i: nat, fingerprint: string)
    requires i < |queue|
    ensures Count(queue[..i + 1], fingerprint)
         == Count(queue[..i], fingerprint) + if queue[i].fingerprint == fingerprint then 1 else 0
  {
    if i > 0 {
      assert queue[..i + 1][1..] == queue[1..][..i] && queue[..i][1..] == queue[1..][..i - 1];
      CountSnoc(queue[1..], i - 1, fingerprint);
    } else {
      assert queue[..1] == [queue[0]] && queue[..0] == [];
    }
  }

  lemma VictimIsUnique(queue: seq<Captured>, a: nat, b: nat)
    requires IsVictim(queue, a) && IsVictim(queue, b)
    ensures a == b
  {
    var countA, countB := Count(queue, queue[a].fingerprint), Count(queue, queue[b].fingerprint);
    assert countA == countB;
  }

  /** `order` lists the fingerprints of the first `n` captures as a counter meets them, `firsts` where it
      met each. */
  ghost predicate FirstSeen(queue: seq<Captured>, n: nat, order: seq<string>, firsts: seq<nat>) {
    && n <= |queue| && |firsts| == |order|
    && (forall k :: 0 <= k < |firsts| ==> firsts[k] < n && queue[firsts[k]].fingerprint == order[k])
    && (forall j, k :: 0 <= j < k < |firsts| ==> firsts[j] < firsts[k])
    && (forall k, j :: 0 <= k < |firsts| && 0 <= j < firsts[k] ==> queue[j].fingerprint != order[k])
    && (forall j :: 0 <= j < n ==> queue[j].fingerprint in order)
  }

  lemma FirstSeenNext(queue: seq<Captured>, i: nat, order: seq<string>, firsts: seq<nat>)
    requires FirstSeen(queue, i, order, firsts) && i < |queue|
    ensures queue[i].fingerprint in order ==> FirstSeen(queue, i + 1, order, firsts)
    ensures queue[i].fingerprint !in order ==> FirstSeen(queue, i + 1, order + [queue[i].fingerprint], firsts + [i])
  {
    if queue[i].fingerprint !in order {
      var next := order + [queue[i].fingerprint];
      assert forall f :: f in order ==> f in next;
      assert next[|order|] == queue[i].fingerprint;
    }
  }

  lemma Met(queue: seq<Captured>, order: seq<string>, firsts: seq<nat>, j: nat) returns (k: nat)
    requires FirstSeen(queue, |queue|, order, firsts) && j < |queue|
    ensures k < |order| && order[k] == queue[j].fingerprint && firsts[k] <= j
  {
    k :| 0 <= k < |order| && order[k] == queue[j].fingerprint;
  }

  lemma FirstMaximumAt(
    queue: seq<Captured>, order: seq<string>, firsts: seq<nat>, best: nat, count: string -> nat, j: nat)
    requires FirstSeen(queue, |queue|, order, firsts) && best < |order| && j < |queue|
    requires forall k :: 0 <= k < |order| ==> count(order[k]) <= count(order[best])
    requires forall k :: 0 <= k < best ==> count(order[k]) < count(order[best])
    ensures count(queue[j].fingerprint) <= count(order[best])
    ensures j < firsts[best] ==> count(queue[j].fingerprint) < count(order[best])
  {
    var k := Met(queue, order, firsts, j);
    assert best < k ==> firsts[best] < firsts[k];
  }

  /** The first maximum in counter order is the victim. */
  lemma FirstMaximumIsVictim(queue: seq<Captured>, order: seq<string>, firsts: seq<nat>, best: nat)
    requires FirstSeen(queue, |queue|, order, firsts) && best < |order|
    requires forall k :: 0 <= k < |order| ==> Count(queue, order[k]) <= Count(queue, order[best])
    requires forall k :: 0 <= k < best ==> Count(queue, order[k]) < Count(queue, order[best])
    ensures IsVictim(queue, firsts[best])
  {
    assert queue[firsts[best]].fingerprint == order[best];
    forall j | 0 <= j < |queue|
      ensures Count(queue, queue[j].fingerprint) <= Count(queue, order[best])
      ensures j < firsts[best] ==> Count(queue, queue[j].fingerprint) < Count(queue, order[best])
    {
      FirstMaximumAt(queue, order, firsts, best, f => Count(queue, f), j);
    }
  }

  lemma NothingRepeats(queue: seq<Captured>, v: nat)
    requires IsVictim(queue, v) && Count(queue, queue[v].fingerprint) == 1
    ensures v == 0
  {
    CountPositive(queue, 0);
    assert Count(queue, queue[0].fingerprint) == Count(queue, queue[v].fingerprint);
  }

  /** A counter that has met the first `n` captures. */
  ghost predicate Counted(queue: seq<Captured>, n: nat, counts: map<string, nat>) {
    n <= |queue| && forall f :: Count(queue[..n], f) == Tally(counts, f)
  }

  function Tally(counts: map<string, nat>, f: string): nat { if f in counts then counts[f] else 0 }

  lemma CountedNext(queue: seq<Captured>, n: nat, counts: map<string, nat>)
    requires Counted(queue, n, counts) && n < |queue|
    ensures var f := queue[n].fingerprint; Counted(queue, n + 1, counts[f := Tally(counts, f) + 1])
  {
    var f := queue[n].fingerprint;
    var next := counts[f := Tally(counts, f) + 1];
    forall g ensures Count(queue[..n + 1], g) == Tally(next, g) {
      CountSnoc(queue, n, g);
      assert Count(queue[..n], g) == Tally(counts, g);
    }
  }

  /** The counter over the queue's fingerprints, and the order it met them in. */
  method CountFingerprints(queue: seq<Captured>)
    returns (counts: map<string, nat>, order: seq<string>, ghost firsts: seq<nat>)
    ensures FirstSeen(queue, |queue|, order, firsts)
    ensures forall f :: f in order ==> f in counts && counts[f] == Count(queue, f)
  {
    counts, order, firsts := map[], [], [];
    for i := 0 to |queue|
      invariant FirstSeen(queue, i, order, firsts)
      invariant forall f :: f in counts <==> f in order
      invariant Counted(queue, i, counts)
    {
      var f := queue[i].fingerprint;
      FirstSeenNext(queue, i, order, firsts);
      CountedNext(queue, i, counts);
      if f in counts {
        counts := counts[f := counts[f] + 1];
      } else {
        counts, order, firsts := counts[f := 1], order + [f], firsts + [i];
      }
    }
    assert queue[..|queue|] == queue;
    forall f | f in order ensures f in counts && counts[f] == Count(queue, f) {
      assert Tally(counts, f) == counts[f];
    }
  }

  /** `most_common(1)`: the first maximum in counter order. */
  method MostCommon(queue: seq<Captured>, counts: map<string, nat>, order: seq<string>) returns (best: nat)
    requires order != [] && forall f :: f in order ==> f in counts && counts[f] == Count(queue, f)
    ensures best < |order|
    ensures forall k :: 0 <= k < |order| ==> Count(queue, order[k]) <= Count(queue, order[best])
    ensures forall k :: 0 <= k < best ==> Count(queue, order[k]) < Count(queue, order[best])
  {
    best := 0;
    for k := 1 to |order|
      invariant best < k
      invariant forall j :: 0 <= j < k ==> Count(queue, order[j]) <= Count(queue, order[best])
      invariant forall j :: 0 <= j < best ==> Count(queue, order[j]) < Count(queue, order[best])
    {
      if counts[order[k]] > counts[order[best]] {
        best := k;
      }
    }
  }

  // ── A tick as a run of the machine ────────────────────────────────────────────────────────────

  /** What one tick meets: the captures that arrive before it reads the queue's length, while each
      delivery is awaited, and while the report is; and which deliveries and report are taken. */
  datatype Turn = Turn(arrivals: seq<Captured>, taken: bool)

  datatype Traffic = Traffic(early: seq<Captured>, turn: nat -> Turn, late: seq<Captured>, takesReport: bool)

  ghost predicate Quiet(t: Traffic) {
    t.early == [] && t.late == [] && forall i: nat :: t.turn(i).arrivals == []
  }

  function Arrives(captures: seq<Captured>): seq<Act> {
    seq(|captures|, i requires 0 <= i < |captures| => Arrive(captures[i]))
  }

  lemma ArrivesSnoc(before: seq<Act>, captures: seq<Captured>, i: nat)
    requires i < |captures|
    ensures before + Arrives(captures[..i]) + [Arrive(captures[i])] == before + Arrives(captures[..i + 1])
  {
  }

  /** The first `n` turns: pop, wait, settle. */
  function Turns(t: Traffic, n: nat): seq<Act> {
    if n == 0 then []
    else Turns(t, n - 1) + [Pop] + Arrives(t.turn(n - 1).arrivals) + [Act.Deliver(t.turn(n - 1).taken)]
  }

  lemma TurnsSnoc(head: seq<Act>, t: Traffic, i: nat)
    ensures head + Turns(t, i) + [Pop] + Arrives(t.turn(i).arrivals) + [Act.Deliver(t.turn(i).taken)]
         == head + Turns(t, i + 1)
  {
  }

  /** How many of the first `n` turns end with the capture taken, when only the last may not. */
  function TakenTurns(t: Traffic, n: nat): nat {
    if n > 0 && !t.turn(n - 1).taken then n - 1 else n
  }

  function Opening(t: Traffic): seq<Act> { [TakeCount] + Arrives(t.early) }

  /** A drain takes a turn for each of the `n` captures it found, or up to the first refused. */
  ghost predicate IsDrain(t: Traffic, n: nat, turns: nat) {
    && turns <= n && (forall i :: 0 <= i < TakenTurns(t, turns) ==> t.turn(i).taken)
    && (TakenTurns(t, turns) == turns ==> turns == n)
  }

  function Closing(t: Traffic, turns: nat): seq<Act> {
    if TakenTurns(t, turns) == turns then [EndDrain] else []
  }

  /** The acts of one tick from `s`: it drains what is queued when it reads the length. */
  ghost predicate IsTick(s: State, maxlen: nat, t: Traffic, turns: nat, acts: seq<Act>) {
    && IsDrain(t, |After(s, maxlen, Opening(t)).queue|, turns)
    && acts == Opening(t) + [BeginDrain] + Turns(t, turns) + Closing(t, turns) + Arrives(t.late)
             + [Report(t.takesReport)]
  }

  /** After `turns` turns nothing interrupted: the first `taken` captures of `start` are finished, and one
      refused after them is at the back. */
  ghost predicate Drained(
    start: seq<Captured>, turns: nat, taken: nat, queue: seq<Captured>, finished: seq<Captured>)
  {
    taken <= turns <= |start| && finished == start[..taken] && queue == start[turns..] + start[taken..turns]
  }

  lemma DrainedNext(start: seq<Captured>, i: nat, queue: seq<Captured>, finished: seq<Captured>)
    requires Drained(start, i, i, queue, finished) && i < |start|
    ensures queue != [] && queue[0] == start[i]
    ensures Drained(start, i + 1, i + 1, queue[1..], finished + [queue[0]])
    ensures Drained(start, i + 1, i, queue[1..] + [queue[0]], finished)
  {
    assert start[i..i] == [] && start[i..i + 1] == [start[i]] && start[i + 1..i + 1] == [];
    assert queue[1..] == start[i + 1..] + start[i + 1..i + 1];
  }

  ghost predicate Finishes(from: State, m: State, finished: seq<Captured>) {
    m.finished == from.finished + multiset(finished)
  }

  lemma FinishesNext(from: State, m: State, finished: seq<Captured>, c: Captured, after: State)
    requires Finishes(from, m, finished)
    ensures after.finished == m.finished + multiset{c} ==> Finishes(from, after, finished + [c])
    ensures after.finished == m.finished ==> Finishes(from, after, finished)
  {
    assert from.finished + multiset(finished) + multiset{c} == from.finished + multiset(finished + [c]);
  }

  /** What one turn does, from `m` and `waiting` to `after` and `queue`. */
  ghost predicate Turned(
    turn: Turn, before: seq<Act>, m: State, waiting: seq<Captured>, captured: Captured, acts: seq<Act>, after: State,
    queue: seq<Captured>)
  {
    && m.drain.Draining? && m.drain.left > 0 && waiting != [] && captured == waiting[0]
    && acts == before + [Pop] + Arrives(turn.arrivals) + [Act.Deliver(turn.taken)]
    && after.drain == (if turn.taken then m.drain.(left := m.drain.left - 1) else Reporting(m.drain.count))
    && after.finished == (if turn.taken then m.finished + multiset{captured} else m.finished)
    && |queue| >= |waiting| - 1
    && (turn.arrivals == [] ==> queue == if turn.taken then waiting[1..] else waiting[1..] + [captured])
  }

  /** Draining after `i` turns, every one taken. */
  ghost predicate Going(
    t: Traffic, before: seq<Act>, from: State, start: seq<Captured>, i: nat, acts: seq<Act>, m: State,
    queue: seq<Captured>, finished: seq<Captured>)
  {
    && from.drain.Draining? && i <= |start| && |start| - i <= |queue|
    && acts == before + Turns(t, i) && m.drain == Draining(from.drain.count, |start| - i, None)
    && Finishes(from, m, finished) && (forall j :: 0 <= j < i ==> t.turn(j).taken)
    && (Quiet(t) ==> Drained(start, i, i, queue, finished))
  }

  /** The drain is over. */
  ghost predicate Done(
    t: Traffic, before: seq<Act>, from: State, start: seq<Captured>, turns: nat, acts: seq<Act>, m: State,
    queue: seq<Captured>, finished: seq<Captured>)
  {
    && from.drain.Draining? && IsDrain(t, |start|, turns)
    && acts == before + Turns(t, turns) + Closing(t, turns)
    && m.drain == Reporting(from.drain.count) && Finishes(from, m, finished)
    && (Quiet(t) ==> Drained(start, turns, TakenTurns(t, turns), queue, finished))
  }

  lemma TurnGoesOn(
    t: Traffic, before: seq<Act>, from: State, start: seq<Captured>, i: nat, last: seq<Act>, had: State,
    waiting: seq<Captured>, finished: seq<Captured>, captured: Captured, acts: seq<Act>, m: State,
    queue: seq<Captured>)
    requires Going(t, before, from, start, i, last, had, waiting, finished)
    requires Turned(t.turn(i), last, had, waiting, captured, acts, m, queue)
    ensures t.turn(i).taken ==> Going(t, before, from, start, i + 1, acts, m, queue, finished + [captured])
    ensures !t.turn(i).taken ==> Done(t, before, from, start, i + 1, acts, m, queue, finished)
  {
    TurnsSnoc(before, t, i);
    FinishesNext(from, had, finished, captured, m);
    if Quiet(t) {
      DrainedNext(start, i, waiting, finished);
    }
  }

  lemma DrainStarts(t: Traffic, before: seq<Act>, from: State, start: seq<Captured>)
    requires from.drain.Draining? && from.drain == Draining(from.drain.count, |start|, None)
    ensures Going(t, before, from, start, 0, before, from, start, [])
  {
    assert before + Turns(t, 0) == before && start[0..] == start && start[0..0] == [];
    assert from.finished + multiset([]) == from.finished;
  }

  lemma DrainEnds(
    t: Traffic, before: seq<Act>, from: State, start: seq<Captured>, acts: seq<Act>, m: State, queue: seq<Captured>,
    finished: seq<Captured>, after: State)
    requires Going(t, before, from, start, |start|, acts, m, queue, finished)
    requires after == m.(drain := Reporting(from.drain.count))
    ensures Done(t, before, from, start, |start|, acts + [EndDrain], after, queue, finished)
  {
    assert TakenTurns(t, |start|) == |start|;
  }

  ghost predicate Ran(s: State, maxlen: nat, acts: seq<Act>, m: State) {
    IsRun(s, maxlen, acts) && After(s, maxlen, acts) == m
  }

  lemma Step(s: State, maxlen: nat, before: seq<Act>, m: State, a: Act) returns (acts: seq<Act>, after: State)
    requires Ran(s, maxlen, before, m) && Enabled(m, a)
    ensures acts == before + [a] && after == Apply(m, maxlen, a) && Ran(s, maxlen, acts, after)
  {
    RunSnoc(s, maxlen, before, a);
    acts, after := before + [a], Apply(m, maxlen, a);
  }

  type Tracker = string

  class Queue {
    const maxlen: nat
    var queue: seq<Captured>
    var dropped: nat
    var marked: set<nat>
    var failures: map<Tracker, nat>

    ghost predicate Valid()
      reads this
    {
      0 < maxlen && |queue| <= maxlen
    }

    constructor (maxlen: nat)
      requires 0 < maxlen
      ensures Valid() && this.maxlen == maxlen && queue == [] && dropped == 0 && marked == {} && failures == map[]
    {
      this.maxlen, queue, dropped, marked, failures := maxlen, [], 0, {}, map[];
    }

    /** Count the fingerprints, take the first of the most common, and drop its oldest capture; when
        nothing repeats, drop the oldest of all. */
    method Shed()
      requires queue != []
      modifies this`queue
      ensures var v := Victim(old(queue));
              queue == Without(old(queue), v) == old(queue)[..v] + old(queue)[v + 1..]
    {
      var counts, order, firsts := CountFingerprints(queue);
      assert queue[0].fingerprint in order;
      var best := MostCommon(queue, counts, order);
      FirstMaximumIsVictim(queue, order, firsts, best);
      VictimIsUnique(queue, firsts[best], Victim(queue));
      if counts[order[best]] == 1 {
        NothingRepeats(queue, Victim(queue));
        queue := queue[1..];
        return;
      }
      for i := 0 to |queue|
        invariant queue == old(queue) && i <= firsts[best]
      {
        if queue[i].fingerprint == order[best] {
          queue := queue[..i] + queue[i + 1..];
          return;
        }
      }
    }

    method Append(c: Captured)
      requires Valid()
      modifies this`queue, this`dropped
      ensures Valid()
      ensures queue == Appended(old(queue), maxlen, c)
      ensures dropped == old(dropped) + if |old(queue)| == maxlen then 1 else 0
    {
      if |queue| == maxlen {
        dropped := dropped + 1;
        Shed();
      }
      queue := queue + [c];
    }

    /** An instance is captured once; one that refuses the mark may be captured again. */
    method Enqueue(c: Captured, takesMark: bool)
      requires Valid()
      modifies this`queue, this`dropped, this`marked
      ensures Valid()
      ensures c.id in old(marked) ==> queue == old(queue) && dropped == old(dropped) && marked == old(marked)
      ensures c.id !in old(marked) ==>
                && queue == Appended(old(queue), maxlen, c)
                && dropped == old(dropped) + (if |old(queue)| == maxlen then 1 else 0)
                && marked == if takesMark then old(marked) + {c.id} else old(marked)
    {
      if c.id in marked {
        return;
      }
      if takesMark {
        marked := marked + {c.id};
      }
      Append(c);
    }

    /** The machine's queue and counter are this one's. */
    ghost predicate Matches(m: State)
      reads this
    {
      m.queue == queue && m.dropped == dropped
    }

    /** Captures other requests queue while the drain waits. */
    method ArriveAll(captures: seq<Captured>, ghost s: State, ghost before: seq<Act>, ghost m: State)
      returns (ghost acts: seq<Act>, ghost after: State)
      requires Valid() && Ran(s, maxlen, before, m) && Matches(m)
      modifies this`queue, this`dropped
      ensures Valid() && acts == before + Arrives(captures) && Ran(s, maxlen, acts, after) && Matches(after)
      ensures |queue| >= |old(queue)| && after.drain == m.drain && after.finished == m.finished
      ensures captures == [] ==> queue == old(queue) && dropped == old(dropped)
    {
      acts, after := before, m;
      for i := 0 to |captures|
        invariant Valid() && acts == before + Arrives(captures[..i]) && Ran(s, maxlen, acts, after) && Matches(after)
        invariant |queue| >= |old(queue)| && after.drain == m.drain && after.finished == m.finished
        invariant i == 0 ==> queue == old(queue) && dropped == old(dropped)
      {
        ArriveWrites(after, maxlen, captures[i]);
        ArrivesSnoc(before, captures, i);
        acts, after := Step(s, maxlen, acts, after, Arrive(captures[i]));
        Append(captures[i]);
      }
      assert captures[..|captures|] == captures;
    }

    /** Pop one capture, hand it over, and put it back if no tracker took it. */
    method TakeTurn(turn: Turn, ghost s: State, ghost before: seq<Act>, ghost m: State)
      returns (captured: Captured, ghost acts: seq<Act>, ghost after: State)
      requires Valid() && Ran(s, maxlen, before, m) && Matches(m)
      requires m.drain.Draining? && m.drain.hand.None? && m.drain.left > 0 && queue != []
      modifies this`queue, this`dropped
      ensures Valid() && Ran(s, maxlen, acts, after) && Matches(after)
      ensures Turned(turn, before, m, old(queue), captured, acts, after, queue)
      ensures turn.arrivals == [] ==> dropped == old(dropped)
    {
      captured := queue[0];
      acts, after := Step(s, maxlen, before, m, Pop);
      queue := queue[1..];
      acts, after := ArriveAll(turn.arrivals, s, acts, after);
      acts, after := Step(s, maxlen, acts, after, Act.Deliver(turn.taken));
      if !turn.taken {
        Append(captured);
      }
    }

    /** Take a turn for each capture queued now, up to the first that is refused. */
    method Drain(t: Traffic, ghost s: State, ghost before: seq<Act>, ghost from: State)
      returns (finished: seq<Captured>, ghost turns: nat, ghost acts: seq<Act>, ghost m: State)
      requires Valid() && Ran(s, maxlen, before, from) && Matches(from)
      requires from.drain.Draining? && from.drain == Draining(from.drain.count, |queue|, None)
      modifies this`queue, this`dropped
      ensures Valid() && Ran(s, maxlen, acts, m) && Matches(m)
      ensures Done(t, before, from, old(queue), turns, acts, m, queue, finished)
      ensures Quiet(t) ==> dropped == old(dropped)
    {
      acts, m, finished, turns := before, from, [], 0;
      ghost var start := queue;
      DrainStarts(t, before, from, start);
      for i := 0 to |queue|
        invariant Valid() && Ran(s, maxlen, acts, m) && Matches(m) && turns == i
        invariant Going(t, before, from, start, i, acts, m, queue, finished)
        invariant Quiet(t) ==> dropped == old(dropped)
      {
        ghost var last, had, waiting := acts, m, queue;
        var captured;
        captured, acts, m := TakeTurn(t.turn(i), s, acts, m);
        TurnGoesOn(t, before, from, start, i, last, had, waiting, finished, captured, acts, m, queue);
        turns := turns + 1;
        if !t.turn(i).taken {
          return;
        }
        finished := finished + [captured];
      }
      ghost var last, had := acts, m;
      acts, m := Step(s, maxlen, acts, m, EndDrain);
      DrainEnds(t, before, from, start, last, had, queue, finished, m);
    }

    /** Take the overflow count. */
    method Start(t: Traffic, ghost s: State) returns (ghost acts: seq<Act>, ghost m: State)
      requires Valid() && s.drain.Idle? && Matches(s)
      modifies this`queue, this`dropped
      ensures Valid() && Ran(s, maxlen, acts, m) && Matches(m) && acts == Opening(t) + [BeginDrain]
      ensures |queue| == |After(s, maxlen, Opening(t)).queue|
      ensures m.drain == Draining(old(dropped), |queue|, None) && m.finished == s.finished
      ensures t.early == [] ==> dropped == 0 && queue == old(queue)
    {
      acts, m := Step(s, maxlen, [], s, TakeCount);
      dropped := 0;
      acts, m := ArriveAll(t.early, s, acts, m);
      acts, m := Step(s, maxlen, acts, m, BeginDrain);
    }

    /** Report what the queue shed, or keep its count. */
    method Report(t: Traffic, count: nat, ghost s: State, ghost before: seq<Act>, ghost m: State)
      returns (ghost acts: seq<Act>, ghost after: State)
      requires Valid() && Ran(s, maxlen, before, m) && Matches(m) && m.drain == Reporting(count)
      modifies this`queue, this`dropped
      ensures Valid() && Ran(s, maxlen, acts, after) && Matches(after) && after.drain.Idle?
      ensures acts == before + Arrives(t.late) + [Act.Report(t.takesReport)] && after.finished == m.finished
      ensures t.late == [] ==>
                && queue == old(queue)
                && dropped == if t.takesReport then old(dropped) else old(dropped) + count
    {
      acts, after := ArriveAll(t.late, s, before, m);
      acts, after := Step(s, maxlen, acts, after, Act.Report(t.takesReport));
      if count > 0 && !t.takesReport {
        dropped := dropped + count;
      }
    }

    /** One drain tick, whatever arrives during it. The captures queued when it starts are handed over in
        turn; the first one no tracker takes goes to the back and ends the tick, so an outage costs one
        delivery a tick; the overflow count is kept until a report of it is taken. */
    method Tick(t: Traffic, ghost s: State)
      returns (finished: seq<Captured>, ghost turns: nat, ghost acts: seq<Act>, ghost m: State)
      requires Valid() && s.drain.Idle? && Matches(s)
      modifies this`queue, this`dropped
      ensures Valid() && Ran(s, maxlen, acts, m) && IsTick(s, maxlen, t, turns, acts)
      ensures Matches(m) && m.drain.Idle? && Finishes(s, m, finished)
      ensures Quiet(t) ==>
                && Drained(old(queue), turns, TakenTurns(t, turns), queue, finished)
                && dropped == if t.takesReport then 0 else old(dropped)
    {
      var count := dropped;
      acts, m := Start(t, s);
      finished, turns, acts, m := Drain(t, s, acts, m);
      acts, m := Report(t, count, s, acts, m);
    }

    /** Hand one capture to every tracker. `raising` names the trackers that raise; those that had not
        been failing are returned, to be captured as failures of their own. */
    method Deliver(trackers: seq<Tracker>, raising: set<Tracker>) returns (taken: bool, reported: seq<Tracker>)
      requires forall i, j :: 0 <= i < j < |trackers| ==> trackers[i] != trackers[j]
      modifies this`failures
      ensures taken <==> trackers == [] || exists t :: t in trackers && t !in raising
      ensures Delivered(old(failures), Delivery(trackers, raising), failures, reported)
    {
      taken, reported := false, [];
      for i := 0 to |trackers|
        invariant taken <==> exists t :: t in trackers[..i] && t !in raising
        invariant forall t :: t in reported <==> t in trackers[..i] && t in raising && Failures(old(failures), t) == 0
        invariant forall t :: Failures(failures, t) == AfterDelivery(old(failures), trackers[..i], raising, t)
      {
        var t := trackers[i];
        assert t !in trackers[..i] && trackers[..i + 1] == trackers[..i] + [t];
        ghost var before := failures;
        assert Failures(before, t) == Failures(old(failures), t);
        if t in raising {
          var n := (if t in failures then failures[t] else 0) + 1;
          failures := failures[t := n];
          if n == 1 {
            reported := reported + [t];
          }
        } else {
          taken := true;
          failures := failures - {t};
        }
        forall u ensures Failures(failures, u) == AfterDelivery(old(failures), trackers[..i + 1], raising, u) {
          assert u != t ==> Failures(failures, u) == Failures(before, u);
          assert Failures(before, u) == AfterDelivery(old(failures), trackers[..i], raising, u);
        }
      }
      assert trackers[..|trackers|] == trackers;
      taken := taken || trackers == [];
    }
  }

  function Failures(failures: map<Tracker, nat>, t: Tracker): nat {
    if t in failures then failures[t] else 0
  }

  /** One delivery moves a tracker's run of consecutive failures on by one, or ends it. */
  function AfterDelivery(failures: map<Tracker, nat>, trackers: seq<Tracker>, raising: set<Tracker>, t: Tracker): nat {
    if t !in trackers then Failures(failures, t)
    else if t in raising then Failures(failures, t) + 1
    else 0
  }

  // ── An outage is one issue ────────────────────────────────────────────────────────────────────

  /** One capture handed to every tracker: which were subscribed, and which raised. */
  datatype Delivery = Delivery(trackers: seq<Tracker>, raising: set<Tracker>)

  /** What `Deliver` does to the runs of consecutive failures, and whose failures it reports. */
  ghost predicate Delivered(before: map<Tracker, nat>, d: Delivery, after: map<Tracker, nat>, reported: seq<Tracker>) {
    && (forall t :: t in reported <==> t in d.trackers && t in d.raising && Failures(before, t) == 0)
    && (forall t :: Failures(after, t) == AfterDelivery(before, d.trackers, d.raising, t))
  }

  /** Deliveries one after another, from a process's start: the failures kept before and after each, and
      the trackers each reported. */
  ghost predicate History(failures: seq<map<Tracker, nat>>, deliveries: seq<Delivery>, reports: seq<seq<Tracker>>) {
    && |failures| == |deliveries| + 1 && |reports| == |deliveries| && failures[0] == map[]
    && (forall i :: 0 <= i < |deliveries| ==> Delivered(failures[i], deliveries[i], failures[i + 1], reports[i]))
  }

  /** How often one tracker's failure was reported. */
  function Reports(reports: seq<seq<Tracker>>, t: Tracker): nat {
    if reports == [] then 0
    else Reports(reports[..|reports| - 1], t) + if t in reports[|reports| - 1] then 1 else 0
  }

  /** A tracker's own deliveries, `true` where it raised. */
  function Outcomes(deliveries: seq<Delivery>, t: Tracker): seq<bool> {
    if deliveries == [] then []
    else
      var before, last := Outcomes(deliveries[..|deliveries| - 1], t), deliveries[|deliveries| - 1];
      if t in last.trackers then before + [t in last.raising] else before
  }

  predicate GoesDown(outcomes: seq<bool>, i: nat)
    requires i < |outcomes|
  {
    outcomes[i] && (i == 0 || !outcomes[i - 1])
  }

  /** The deliveries at which a tracker went down. */
  ghost function Outages(outcomes: seq<bool>): set<nat> {
    set i | 0 <= i < |outcomes| && GoesDown(outcomes, i)
  }

  lemma OutagesMore(before: seq<bool>, raised: bool)
    ensures |Outages(before + [raised])|
         == |Outages(before)| + if raised && (before == [] || !before[|before| - 1]) then 1 else 0
  {
    var all, n := before + [raised], |before|;
    assert forall i :: 0 <= i < n ==> (GoesDown(all, i) <==> GoesDown(before, i));
    if GoesDown(all, n) {
      assert Outages(all) == Outages(before) + {n};
    } else {
      assert Outages(all) == Outages(before);
    }
  }

  /** Over any deliveries, a tracker's failures are reported exactly once per outage, however long each is;
      and it is failing now exactly when its last delivery raised. A report queues the exception unless it
      carries the mark already, so an outage is captured at most once. */
  lemma {:induction false} OneCapturePerOutage(
    failures: seq<map<Tracker, nat>>, deliveries: seq<Delivery>, reports: seq<seq<Tracker>>, t: Tracker)
    requires History(failures, deliveries, reports)
    ensures Reports(reports, t) == |Outages(Outcomes(deliveries, t))|
    ensures var outcomes := Outcomes(deliveries, t);
            Failures(failures[|deliveries|], t) > 0 <==> outcomes != [] && outcomes[|outcomes| - 1]
    decreases |deliveries|
  {
    if deliveries == [] {
      assert Outages([]) == {};
    } else {
      var n := |deliveries| - 1;
      OneCapturePerOutage(failures[..n + 1], deliveries[..n], reports[..n], t);
      assert Delivered(failures[n], deliveries[n], failures[n + 1], reports[n]);
      assert failures[..n + 1][n] == failures[n];
      OutagesMore(Outcomes(deliveries[..n], t), t in deliveries[n].raising);
    }
  }
}
