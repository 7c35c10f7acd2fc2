/** The bounded queue of captured exceptions, the drain that empties it, and the count of what it had to
    shed. */
module Capture {

  /** One exception instance and its shedding fingerprint. */
  datatype Captured = Captured(id: nat, fingerprint: string)

  datatype Option<T> = None | Some(value: T)

  function Count(queue: seq<Captured>, fingerprint: string): nat {
    if queue == [] then 0
    else (if queue[0].fingerprint == fingerprint then 1 else 0) + Count(queue[1..], fingerprint)
  }

  function Fingerprints(queue: seq<Captured>): set<string> {
    set c | c in queue :: c.fingerprint
  }

  // ── Shedding ──────────────────────────────────────────────────────────────────────────────────

  /** The capture a full queue gives up: of the fingerprints that repeat the most, the one queued
      first, and its oldest capture. When nothing repeats that is the oldest capture of all. */
  ghost predicate IsVictim(queue: seq<Captured>, v: nat) {
    && v < |queue|
    && (forall i :: 0 <= i < |queue| ==> Count(queue, queue[i].fingerprint) <= Count(queue, queue[v].fingerprint))
    && (forall i :: 0 <= i < v ==> Count(queue, queue[i].fingerprint) < Count(queue, queue[v].fingerprint))
  }

  /** The earliest of the most repeated, searching from `i` with `best` in hand. */
  function VictimFrom(queue: seq<Captured>, best: nat, i: nat): (v: nat)
    requires best < i <= |queue|
    requires forall j :: 0 <= j < i ==> Count(queue, queue[j].fingerprint) <= Count(queue, queue[best].fingerprint)
    requires forall j :: 0 <= j < best ==> Count(queue, queue[j].fingerprint) < Count(queue, queue[best].fingerprint)
    ensures IsVictim(queue, v)
    decreases |queue| - i
  {
    if i == |queue| then best
    else if Count(queue, queue[i].fingerprint) > Count(queue, queue[best].fingerprint) then VictimFrom(queue, i, i + 1)
    else VictimFrom(queue, best, i + 1)
  }

  function Victim(queue: seq<Captured>): (v: nat)
    requires queue != []
    ensures IsVictim(queue, v)
  {
    VictimFrom(queue, 0, 1)
  }

  function Without(queue: seq<Captured>, v: nat): seq<Captured>
    requires v < |queue|
  {
    queue[..v] + queue[v + 1..]
  }

  /** `_append` on a queue of capacity `maxlen`. */
  function Appended(queue: seq<Captured>, maxlen: nat, c: Captured): seq<Captured> {
    (if |queue| == maxlen && queue != [] then Without(queue, Victim(queue)) else queue) + [c]
  }

  lemma {:induction false} CountPositive(queue: seq<Captured>, i: nat)
    requires i < |queue|
    ensures Count(queue, queue[i].fingerprint) > 0
  {
    if i > 0 {
      CountPositive(queue[1..], i - 1);
    }
  }

  lemma {:induction false} CountOfTwo(queue: seq<Captured>, i: nat, fingerprint: string)
    requires i < |queue| && queue[i].fingerprint == fingerprint && Count(queue, fingerprint) >= 2
    ensures exists j :: 0 <= j < |queue| && j != i && queue[j].fingerprint == fingerprint
  {
    if i == 0 {
      CountedIsPresent(queue[1..], fingerprint);
      var j :| 0 <= j < |queue[1..]| && queue[1..][j].fingerprint == fingerprint;
      assert queue[j + 1].fingerprint == fingerprint;
    } else if queue[0].fingerprint != fingerprint {
      CountOfTwo(queue[1..], i - 1, fingerprint);
      var j :| 0 <= j < |queue[1..]| && j != i - 1 && queue[1..][j].fingerprint == fingerprint;
      assert queue[j + 1].fingerprint == fingerprint;
    }
  }

  lemma {:induction false} CountedIsPresent(queue: seq<Captured>, fingerprint: string)
    requires Count(queue, fingerprint) > 0
    ensures exists j :: 0 <= j < |queue| && queue[j].fingerprint == fingerprint
  {
    if queue[0].fingerprint != fingerprint {
      CountedIsPresent(queue[1..], fingerprint);
      var j :| 0 <= j < |queue[1..]| && queue[1..][j].fingerprint == fingerprint;
      assert queue[j + 1].fingerprint == fingerprint;
    }
  }

  /** The pigeonhole: captures that never repeat are as many as their fingerprints. */
  lemma {:induction false} DistinctFillsSet(queue: seq<Captured>)
    requires forall i, j :: 0 <= i < j < |queue| ==> queue[i].fingerprint != queue[j].fingerprint
    ensures |Fingerprints(queue)| == |queue|
  {
    if queue != [] {
      var rest := queue[1..];
      DistinctFillsSet(rest);
      assert queue == [queue[0]] + rest;
      assert Fingerprints(queue) == {queue[0].fingerprint} + Fingerprints(rest);
      assert queue[0].fingerprint !in Fingerprints(rest);
    }
  }

  /** When captures outnumber fingerprints, another one shares the victim's. */
  lemma VictimRepeats(queue: seq<Captured>) returns (k: nat)
    requires queue != [] && |Fingerprints(queue)| < |queue|
    ensures k < |queue| && k != Victim(queue) && queue[k].fingerprint == queue[Victim(queue)].fingerprint
  {
    assert exists i, j :: 0 <= i < j < |queue| && queue[i].fingerprint == queue[j].fingerprint by {
      if !(exists i, j :: 0 <= i < j < |queue| && queue[i].fingerprint == queue[j].fingerprint) {
        DistinctFillsSet(queue);
      }
    }
    var i, j :| 0 <= i < j < |queue| && queue[i].fingerprint == queue[j].fingerprint;
    CountTwo(queue, i, j);
    CountOfTwo(queue, Victim(queue), queue[Victim(queue)].fingerprint);
    k :| 0 <= k < |queue| && k != Victim(queue) && queue[k].fingerprint == queue[Victim(queue)].fingerprint;
  }

  lemma WithoutMembers(queue: seq<Captured>, v: nat)
    requires v < |queue|
    ensures forall c :: c in Without(queue, v) ==> c in queue
    ensures forall n :: 0 <= n < |queue| && n != v ==> queue[n] in Without(queue, v)
  {
    forall n | 0 <= n < |queue| && n != v
      ensures queue[n] in Without(queue, v)
    {
      assert Without(queue, v)[if n < v then n else n - 1] == queue[n];
    }
  }

  /** While a full queue holds fewer fingerprints than captures, giving one up loses no fingerprint. */
  lemma ShedKeepsFingerprints(queue: seq<Captured>)
    requires queue != [] && |Fingerprints(queue)| < |queue|
    ensures Fingerprints(Without(queue, Victim(queue))) == Fingerprints(queue)
  {
    var v := Victim(queue);
    var k := VictimRepeats(queue);
    WithoutMembers(queue, v);
    forall c | c in queue
      ensures c.fingerprint in Fingerprints(Without(queue, v))
    {
      var m :| 0 <= m < |queue| && queue[m] == c;
      assert queue[if m == v then k else m] in Without(queue, v);
    }
  }

  lemma {:induction false} CountTwo(queue: seq<Captured>, i: nat, j: nat)
    requires i < j < |queue| && queue[i].fingerprint == queue[j].fingerprint
    ensures Count(queue, queue[i].fingerprint) >= 2
  {
    if i == 0 {
      CountPositive(queue[1..], j - 1);
    } else {
      CountTwo(queue[1..], i - 1, j - 1);
    }
  }

  lemma AppendedMultiset(queue: seq<Captured>, maxlen: nat, c: Captured)
    requires 0 < maxlen && |queue| <= maxlen
    ensures |Appended(queue, maxlen, c)| <= maxlen
    ensures |queue| < maxlen ==> multiset(Appended(queue, maxlen, c)) == multiset(queue) + multiset{c}
    ensures |queue| == maxlen ==>
              multiset(Appended(queue, maxlen, c)) + multiset{queue[Victim(queue)]} == multiset(queue) + multiset{c}
  {
    if |queue| == maxlen {
      var v := Victim(queue);
      assert queue == queue[..v] + [queue[v]] + queue[v + 1..];
    }
  }

  // ── The machine: captures from anywhere, one drain ────────────────────────────────────────────

  /** Where the drain is: `count` is the overflow its tick took from the counter, `left` how many pops
      the tick still allows, `hand` the capture out for delivery. */
  datatype Drain =
    | Idle
    | Counted(count: nat)
    | Draining(count: nat, left: nat, hand: Option<Captured>)
    | Reporting(count: nat)

  /** `accepted`, `finished` and `shed` are histories: what was ever queued, what a delivery was done
      with, what was evicted. `reported` sums the shortfalls a tracker took. */
  datatype State = State(
    queue: seq<Captured>, dropped: nat, drain: Drain,
    accepted: multiset<Captured>, finished: multiset<Captured>, shed: multiset<Captured>, reported: nat)

  datatype Act =
    | Arrive(c: Captured)
    | TakeCount
    | BeginDrain
    | Pop
    | Deliver(taken: bool)
    | EndDrain
    | Report(taken: bool)

  ghost predicate Enabled(s: State, a: Act) {
    match a
    case Arrive(_) => true
    case TakeCount => s.drain.Idle?
    case BeginDrain => s.drain.Counted?
    case Pop => s.drain.Draining? && s.drain.hand.None? && s.drain.left > 0
    case Deliver(_) => s.drain.Draining? && s.drain.hand.Some?
    case EndDrain => s.drain.Draining? && s.drain.hand.None? && s.drain.left == 0
    case Report(_) => s.drain.Reporting?
  }

  /** `c` at the back of the queue, with whatever had to make room counted as shed. */
  function Push(s: State, maxlen: nat, c: Captured): State {
    if |s.queue| == maxlen && s.queue != [] then
      s.(queue := Appended(s.queue, maxlen, c), dropped := s.dropped + 1,
         shed := s.shed + multiset{s.queue[Victim(s.queue)]})
    else s.(queue := Appended(s.queue, maxlen, c))
  }

  function Apply(s: State, maxlen: nat, a: Act): State {
    match a
    case Arrive(c) => Push(s, maxlen, c).(accepted := s.accepted + multiset{c})
    case TakeCount => s.(drain := Counted(s.dropped), dropped := 0)
    case BeginDrain => if !s.drain.Counted? then s else s.(drain := Draining(s.drain.count, |s.queue|, None))
    case Pop =>
      if !s.drain.Draining? || s.drain.left == 0 then s
      else if s.queue == [] then s.(drain := Reporting(s.drain.count))
      else s.(drain := Draining(s.drain.count, s.drain.left - 1, Some(s.queue[0])), queue := s.queue[1..])
    case Deliver(taken) =>
      if !s.drain.Draining? || s.drain.hand.None? then s
      else if taken then
        s.(drain := s.drain.(hand := None), finished := s.finished + multiset{s.drain.hand.value})
      else Push(s.(drain := Reporting(s.drain.count)), maxlen, s.drain.hand.value)
    case EndDrain => if !s.drain.Draining? then s else s.(drain := Reporting(s.drain.count))
    case Report(taken) =>
      if !s.drain.Reporting? then s
      else if taken then s.(drain := Idle, reported := s.reported + s.drain.count)
      else s.(drain := Idle, dropped := s.dropped + s.drain.count)
  }

  function Init(): State { State([], 0, Idle, multiset{}, multiset{}, multiset{}, 0) }

  ghost predicate IsRun(s: State, maxlen: nat, acts: seq<Act>)
    decreases |acts|
  {
    acts == [] || (Enabled(s, acts[0]) && IsRun(Apply(s, maxlen, acts[0]), maxlen, acts[1..]))
  }

  function After(s: State, maxlen: nat, acts: seq<Act>): State
    decreases |acts|
  {
    if acts == [] then s else After(Apply(s, maxlen, acts[0]), maxlen, acts[1..])
  }

  function InHand(s: State): multiset<Captured> {
    if s.drain.Draining? && s.drain.hand.Some? then multiset{s.drain.hand.value} else multiset{}
  }

  /** The overflow a tick holds between taking it and reporting it. */
  function InReport(s: State): nat { if s.drain.Idle? then 0 else s.drain.count }

  ghost predicate Conserved(s: State, maxlen: nat) {
    && |s.queue| <= maxlen
    && s.accepted == multiset(s.queue) + s.finished + InHand(s) + s.shed
    && |s.shed| == s.reported + s.dropped + InReport(s)
  }

  lemma ShedAdds(
    before: multiset<Captured>, after: multiset<Captured>, shed: multiset<Captured>, out: Captured, c: Captured)
    requires after + multiset{out} == before + multiset{c}
    ensures after + (shed + multiset{out}) == before + shed + multiset{c}
  {
    forall x ensures (after + (shed + multiset{out}))[x] == (before + shed + multiset{c})[x] {
      assert (after + multiset{out})[x] == (before + multiset{c})[x];
    }
  }

  lemma PushConserves(s: State, maxlen: nat, c: Captured)
    requires 0 < maxlen && |s.queue| <= maxlen
    ensures var t := Push(s, maxlen, c);
            && |t.queue| <= maxlen
            && multiset(t.queue) + t.shed == multiset(s.queue) + s.shed + multiset{c}
            && |t.shed| + s.dropped == |s.shed| + t.dropped
            && t.finished == s.finished && t.drain == s.drain && t.reported == s.reported && t.accepted == s.accepted
  {
    AppendedMultiset(s.queue, maxlen, c);
    if |s.queue| == maxlen {
      ShedAdds(multiset(s.queue), multiset(Appended(s.queue, maxlen, c)), s.shed, s.queue[Victim(s.queue)], c);
    }
  }

  lemma ArriveConserves(s: State, maxlen: nat, c: Captured)
    requires 0 < maxlen && Conserved(s, maxlen)
    ensures Conserved(Apply(s, maxlen, Arrive(c)), maxlen)
  {
    PushConserves(s, maxlen, c);
    var t := Apply(s, maxlen, Arrive(c));
    assert t.accepted == (multiset(s.queue) + s.shed + multiset{c}) + s.finished + InHand(s);
  }

  lemma RefusedConserves(s: State, maxlen: nat)
    requires 0 < maxlen && Conserved(s, maxlen) && Enabled(s, Deliver(false))
    ensures Conserved(Apply(s, maxlen, Deliver(false)), maxlen)
  {
    var c := s.drain.hand.value;
    var u := s.(drain := Reporting(s.drain.count));
    PushConserves(u, maxlen, c);
    var t := Push(u, maxlen, c);
    assert InHand(t) == multiset{} && InHand(s) == multiset{c};
    forall x ensures t.accepted[x] == (multiset(t.queue) + t.finished + InHand(t) + t.shed)[x] {
      assert (multiset(t.queue) + t.shed)[x] == (multiset(s.queue) + s.shed + multiset{c})[x];
    }
  }

  lemma TakenConserves(s: State, maxlen: nat)
    requires Conserved(s, maxlen) && Enabled(s, Deliver(true))
    ensures Conserved(Apply(s, maxlen, Deliver(true)), maxlen)
  {
    var t := Apply(s, maxlen, Deliver(true));
    assert t.finished + InHand(t) == s.finished + InHand(s);
  }

  lemma PopConserves(s: State, maxlen: nat)
    requires Conserved(s, maxlen) && Enabled(s, Pop)
    ensures Conserved(Apply(s, maxlen, Pop), maxlen)
  {
    var t := Apply(s, maxlen, Pop);
    if s.queue != [] {
      FirstLeaves(s.queue);
      assert InHand(t) == multiset{s.queue[0]} && InHand(s) == multiset{};
    }
  }

  lemma FirstLeaves(queue: seq<Captured>)
    requires queue != []
    ensures multiset(queue[1..]) + multiset{queue[0]} == multiset(queue)
  {
    assert queue == [queue[0]] + queue[1..];
  }

  lemma ApplyConserves(s: State, maxlen: nat, a: Act)
    requires 0 < maxlen && Conserved(s, maxlen) && Enabled(s, a)
    ensures Conserved(Apply(s, maxlen, a), maxlen)
  {
    match a
    case Arrive(c) => ArriveConserves(s, maxlen, c);
    case Deliver(taken) =>
      if taken {
        TakenConserves(s, maxlen);
      } else {
        RefusedConserves(s, maxlen);
      }
    case Pop => PopConserves(s, maxlen);
    case _ => assert Apply(s, maxlen, a).queue == s.queue;
  }

  lemma {:induction false} RunConserves(s: State, maxlen: nat, acts: seq<Act>)
    requires 0 < maxlen && Conserved(s, maxlen) && IsRun(s, maxlen, acts)
    ensures Conserved(After(s, maxlen, acts), maxlen)
    decreases |acts|
  {
    if acts != [] {
      ApplyConserves(s, maxlen, acts[0]);
      RunConserves(Apply(s, maxlen, acts[0]), maxlen, acts[1..]);
    }
  }

  /** Nothing is lost uncounted: in every reachable state each accepted capture is queued, finished, in
      the drain's hand or shed, and each shed one is in a report a tracker took, in the pending counter
      or in the report being made. */
  lemma CapturesAreConserved(maxlen: nat, acts: seq<Act>)
    requires 0 < maxlen && IsRun(Init(), maxlen, acts)
    ensures var s := After(Init(), maxlen, acts);
            && |s.queue| <= maxlen
            && s.accepted == multiset(s.queue) + s.finished + InHand(s) + s.shed
            && |s.shed| == s.reported + s.dropped + InReport(s)
  {
    RunConserves(Init(), maxlen, acts);
  }

  // ── No distinct failure disappears ────────────────────────────────────────────────────────────

  function Kinds(captures: multiset<Captured>): set<string> {
    set c | c in captures :: c.fingerprint
  }

  lemma KindsAdd(captures: multiset<Captured>, c: Captured)
    ensures Kinds(captures + multiset{c}) == Kinds(captures) + {c.fingerprint}
    ensures Kinds(multiset{c}) == {c.fingerprint} && Kinds(multiset{}) == {}
  {
  }

  lemma FingerprintsCons(queue: seq<Captured>)
    requires queue != []
    ensures Fingerprints(queue) == {queue[0].fingerprint} + Fingerprints(queue[1..])
  {
    assert queue == [queue[0]] + queue[1..];
  }

  /** Every fingerprint ever accepted is finished, queued or in hand. */
  ghost predicate NoneErased(s: State) {
    Kinds(s.accepted) == Kinds(s.finished) + Fingerprints(s.queue) + Kinds(InHand(s))
  }

  /** Few enough fingerprints for a queue of that capacity. */
  predicate Fits(kinds: nat, maxlen: nat) { kinds < maxlen || kinds <= 1 }

  lemma PushErasesNone(s: State, maxlen: nat, c: Captured)
    requires 0 < maxlen && |s.queue| <= maxlen
    requires Fits(|Fingerprints(s.queue) + {c.fingerprint}|, maxlen)
    ensures Fingerprints(Push(s, maxlen, c).queue) == Fingerprints(s.queue) + {c.fingerprint}
  {
    if |s.queue| == maxlen {
      FingerprintsSnoc(Without(s.queue, Victim(s.queue)), c);
      SheddingErasesNone(s.queue, c);
    } else {
      FingerprintsSnoc(s.queue, c);
    }
  }

  lemma FingerprintsSnoc(queue: seq<Captured>, c: Captured)
    ensures Fingerprints(queue + [c]) == Fingerprints(queue) + {c.fingerprint}
  {
  }

  lemma SheddingErasesNone(queue: seq<Captured>, c: Captured)
    requires queue != [] && Fits(|Fingerprints(queue) + {c.fingerprint}|, |queue|)
    ensures Fingerprints(Without(queue, Victim(queue))) + {c.fingerprint} == Fingerprints(queue) + {c.fingerprint}
  {
    var both := Fingerprints(queue) + {c.fingerprint};
    Subset(Fingerprints(queue), both);
    if |both| < |queue| {
      ShedKeepsFingerprints(queue);
    } else {
      WithoutMembers(queue, Victim(queue));
      forall f | f in Fingerprints(queue) ensures f == c.fingerprint {
        Subset({f, c.fingerprint}, both);
      }
    }
  }

  lemma Subset<T>(a: set<T>, b: set<T>)
    requires a <= b
    ensures |a| <= |b|
  {
    assert b == a + (b - a);
  }

  lemma ArriveErasesNone(s: State, maxlen: nat, c: Captured)
    requires 0 < maxlen && |s.queue| <= maxlen && NoneErased(s)
    requires Fits(|Kinds(Apply(s, maxlen, Arrive(c)).accepted)|, maxlen)
    ensures NoneErased(Apply(s, maxlen, Arrive(c)))
  {
    var t := Apply(s, maxlen, Arrive(c));
    KindsAdd(s.accepted, c);
    assert t.accepted == s.accepted + multiset{c} && t.finished == s.finished && InHand(t) == InHand(s);
    Subset(Fingerprints(s.queue) + {c.fingerprint}, Kinds(t.accepted));
    PushErasesNone(s, maxlen, c);
    assert t.queue == Push(s, maxlen, c).queue;
  }

  lemma PushFrame(s: State, maxlen: nat, c: Captured)
    ensures var t := Push(s, maxlen, c);
            t.accepted == s.accepted && t.finished == s.finished && t.drain == s.drain
  {
  }

  lemma RefusedErasesNone(s: State, maxlen: nat)
    requires 0 < maxlen && |s.queue| <= maxlen && NoneErased(s) && Enabled(s, Deliver(false))
    requires Fits(|Kinds(s.accepted)|, maxlen)
    ensures NoneErased(Push(s.(drain := Reporting(s.drain.count)), maxlen, s.drain.hand.value))
  {
    var c := s.drain.hand.value;
    var u := s.(drain := Reporting(s.drain.count));
    KindsAdd(multiset{}, c);
    PushFrame(u, maxlen, c);
    Subset(Fingerprints(s.queue) + {c.fingerprint}, Kinds(s.accepted));
    PushErasesNone(u, maxlen, c);
    var t := Push(u, maxlen, c);
    assert InHand(t) == multiset{} && InHand(s) == multiset{c};
    assert Kinds(t.accepted) == Kinds(t.finished) + Fingerprints(t.queue) + Kinds(InHand(t));
  }

  lemma TakenErasesNone(s: State, maxlen: nat)
    requires NoneErased(s) && Enabled(s, Deliver(true))
    ensures NoneErased(Apply(s, maxlen, Deliver(true)))
  {
    KindsAdd(s.finished, s.drain.hand.value);
    var t := Apply(s, maxlen, Deliver(true));
    assert InHand(t) == multiset{} && t.queue == s.queue && t.accepted == s.accepted;
  }

  lemma PopErasesNone(s: State, maxlen: nat)
    requires NoneErased(s) && Enabled(s, Pop)
    ensures NoneErased(Apply(s, maxlen, Pop))
  {
    var t := Apply(s, maxlen, Pop);
    if s.queue != [] {
      FingerprintsCons(s.queue);
      KindsAdd(multiset{}, s.queue[0]);
      assert InHand(t) == multiset{s.queue[0]} && InHand(s) == multiset{};
    } else {
      assert InHand(t) == InHand(s) == multiset{};
    }
  }

  lemma ApplyErasesNone(s: State, maxlen: nat, a: Act)
    requires 0 < maxlen && Conserved(s, maxlen) && Enabled(s, a) && NoneErased(s)
    requires Fits(|Kinds(Apply(s, maxlen, a).accepted)|, maxlen)
    ensures NoneErased(Apply(s, maxlen, a))
  {
    match a
    case Arrive(c) => ArriveErasesNone(s, maxlen, c);
    case Pop => PopErasesNone(s, maxlen);
    case Deliver(taken) =>
      if taken {
        TakenErasesNone(s, maxlen);
      } else {
        PushFrame(s.(drain := Reporting(s.drain.count)), maxlen, s.drain.hand.value);
        RefusedErasesNone(s, maxlen);
      }
    case _ =>
      var t := Apply(s, maxlen, a);
      assert t.queue == s.queue && t.accepted == s.accepted && t.finished == s.finished && InHand(t) == InHand(s);
  }

  lemma {:induction false} AcceptedOnlyGrows(s: State, maxlen: nat, acts: seq<Act>)
    ensures s.accepted <= After(s, maxlen, acts).accepted
    decreases |acts|
  {
    if acts != [] {
      AcceptedOnlyGrows(Apply(s, maxlen, acts[0]), maxlen, acts[1..]);
    }
  }

  lemma {:induction false} RunErasesNone(s: State, maxlen: nat, acts: seq<Act>)
    requires 0 < maxlen && Conserved(s, maxlen) && NoneErased(s) && IsRun(s, maxlen, acts)
    requires Fits(|Kinds(After(s, maxlen, acts).accepted)|, maxlen)
    ensures NoneErased(After(s, maxlen, acts))
    decreases |acts|
  {
    if acts != [] {
      var t := Apply(s, maxlen, acts[0]);
      AcceptedOnlyGrows(t, maxlen, acts[1..]);
      Subset(Kinds(t.accepted), Kinds(After(s, maxlen, acts).accepted));
      ApplyConserves(s, maxlen, acts[0]);
      ApplyErasesNone(s, maxlen, acts[0]);
      RunErasesNone(t, maxlen, acts[1..]);
    }
  }

  // ── ... and past that many, one does ─────────────────────────────────────────────────────────

  function Named(n: nat): Captured { Captured(n, seq(n, _ => 'x')) }

  function Arrivals(n: nat): seq<Captured> { seq(n, i requires 0 <= i < n => Named(i)) }

  lemma ArrivalsSnoc(n: nat)
    requires n > 0
    ensures Arrivals(n) == Arrivals(n - 1) + [Named(n - 1)]
    ensures multiset(Arrivals(n)) == multiset(Arrivals(n - 1)) + multiset{Named(n - 1)}
  {
    assert Arrivals(n) == Arrivals(n - 1) + [Named(n - 1)];
  }

  lemma {:induction false} FillQueue(maxlen: nat, n: nat) returns (acts: seq<Act>)
    requires n <= maxlen
    ensures IsRun(Init(), maxlen, acts)
    ensures var s := After(Init(), maxlen, acts);
            && s.queue == Arrivals(n) && s.drain.Idle?
            && s.accepted == multiset(Arrivals(n)) && s.finished == multiset{}
  {
    if n == 0 {
      acts := [];
    } else {
      var before := FillQueue(maxlen, n - 1);
      var s := After(Init(), maxlen, before);
      var act := Arrive(Named(n - 1));
      RunSnoc(Init(), maxlen, before, act);
      acts := before + [act];
      ArriveWrites(s, maxlen, Named(n - 1));
      ArrivalsSnoc(n);
    }
  }

  lemma RunCons(s: State, maxlen: nat, a: Act, rest: seq<Act>)
    ensures IsRun(s, maxlen, [a] + rest) <==> Enabled(s, a) && IsRun(Apply(s, maxlen, a), maxlen, rest)
    ensures After(s, maxlen, [a] + rest) == After(Apply(s, maxlen, a), maxlen, rest)
  {
    assert ([a] + rest)[1..] == rest;
  }

  lemma {:induction false} RunSnoc(s: State, maxlen: nat, acts: seq<Act>, a: Act)
    requires IsRun(s, maxlen, acts) && Enabled(After(s, maxlen, acts), a)
    ensures IsRun(s, maxlen, acts + [a]) && After(s, maxlen, acts + [a]) == Apply(After(s, maxlen, acts), maxlen, a)
    decreases |acts|
  {
    if acts == [] {
      RunCons(s, maxlen, a, []);
      assert acts + [a] == [a] + [];
    } else {
      RunSnoc(Apply(s, maxlen, acts[0]), maxlen, acts[1..], a);
      RunCons(s, maxlen, acts[0], acts[1..] + [a]);
      assert acts + [a] == [acts[0]] + (acts[1..] + [a]);
    }
  }

  lemma ArrivalsAreDistinct(n: nat)
    ensures |Arrivals(n)| == n
    ensures forall i, j :: 0 <= i < j < n ==> Arrivals(n)[i].fingerprint != Arrivals(n)[j].fingerprint
    ensures |Fingerprints(Arrivals(n))| == n
  {
    var q := Arrivals(n);
    forall i, j | 0 <= i < j < n ensures q[i].fingerprint != q[j].fingerprint {
      assert |q[i].fingerprint| == i && |q[j].fingerprint| == j;
    }
    DistinctFillsSet(q);
  }

  /** The capture that overflows a queue of distinct ones: a repeat of the last, or, with room for only
      one, a second fingerprint. */
  function Overflowing(maxlen: nat): Captured
    requires 0 < maxlen
  {
    if maxlen == 1 then Named(1) else Captured(maxlen, Named(maxlen - 1).fingerprint)
  }

  lemma OverflowingCounts(maxlen: nat)
    requires 0 < maxlen
    ensures |Fingerprints(Arrivals(maxlen)) + {Overflowing(maxlen).fingerprint}| == if maxlen == 1 then 2 else maxlen
  {
    var q, last := Arrivals(maxlen), Overflowing(maxlen);
    ArrivalsAreDistinct(maxlen);
    if maxlen == 1 {
      forall c | c in q ensures c.fingerprint != last.fingerprint {
        assert c == q[0] && |c.fingerprint| == 0 && |last.fingerprint| == 1;
      }
    } else {
      assert q[maxlen - 1] in q;
      assert Fingerprints(q) + {last.fingerprint} == Fingerprints(q);
    }
  }

  /** A queue full of distinct captures gives up its oldest, and with it the oldest's fingerprint. */
  lemma DistinctQueueErases(maxlen: nat) returns (acts: seq<Act>)
    requires 0 < maxlen
    ensures IsRun(Init(), maxlen, acts)
    ensures var s := After(Init(), maxlen, acts);
            !NoneErased(s) && |Kinds(s.accepted)| == (if maxlen == 1 then 2 else maxlen)
  {
    var before := FillQueue(maxlen, maxlen);
    var q, last := Arrivals(maxlen), Overflowing(maxlen);
    RunSnoc(Init(), maxlen, before, Arrive(last));
    acts := before + [Arrive(last)];
    ArriveWrites(After(Init(), maxlen, before), maxlen, last);
    OverflowingErases(maxlen, After(Init(), maxlen, acts));
    OverflowingKinds(maxlen);
  }

  lemma ArriveWrites(s: State, maxlen: nat, c: Captured)
    ensures var t := Apply(s, maxlen, Arrive(c));
            && t.queue == Appended(s.queue, maxlen, c) && t.accepted == s.accepted + multiset{c}
            && t.finished == s.finished && t.drain == s.drain
  {
  }

  lemma OverflowingKinds(maxlen: nat)
    requires 0 < maxlen
    ensures |Kinds(multiset(Arrivals(maxlen)) + multiset{Overflowing(maxlen)})| == if maxlen == 1 then 2 else maxlen
  {
    var q := Arrivals(maxlen);
    OverflowingCounts(maxlen);
    KindsAdd(multiset(q), Overflowing(maxlen));
    assert Kinds(multiset(q)) == Fingerprints(q);
  }

  lemma OverflowingErases(maxlen: nat, t: State)
    requires 0 < maxlen && t.queue == Appended(Arrivals(maxlen), maxlen, Overflowing(maxlen))
    requires t.accepted == multiset(Arrivals(maxlen)) + multiset{Overflowing(maxlen)}
    requires t.finished == multiset{} && InHand(t) == multiset{}
    ensures !NoneErased(t)
  {
    var q, last := Arrivals(maxlen), Overflowing(maxlen);
    ArrivalsAreDistinct(maxlen);
    VictimOfDistinct(q);
    assert t.queue == q[1..] + [last];
    assert q[0] in t.accepted && |q[0].fingerprint| == 0;
    forall c | c in t.queue ensures c.fingerprint != q[0].fingerprint {
      var i :| 0 <= i < |t.queue| && t.queue[i] == c;
      assert |c.fingerprint| > 0;
    }
    assert q[0].fingerprint in Kinds(t.accepted) && q[0].fingerprint !in Fingerprints(t.queue);
  }

  lemma VictimOfDistinct(queue: seq<Captured>)
    requires queue != []
    requires forall i, j :: 0 <= i < j < |queue| ==> queue[i].fingerprint != queue[j].fingerprint
    ensures Victim(queue) == 0
  {
    var v := Victim(queue);
    CountPositive(queue, 0);
    if v > 0 && Count(queue, queue[v].fingerprint) >= 2 {
      CountOfTwo(queue, v, queue[v].fingerprint);
    }
  }

  /** Shedding never erases a distinct failure, exactly when the failures are few enough: runs that
      accept at most `kinds` fingerprints all keep every one of them finished, queued or in hand if and
      only if `kinds` is below the capacity (or is 1). */
  lemma NoneErasedIffFits(maxlen: nat, kinds: nat)
    requires 0 < maxlen
    ensures Fits(kinds, maxlen) <==>
              forall acts :: IsRun(Init(), maxlen, acts) && |Kinds(After(Init(), maxlen, acts).accepted)| <= kinds
                        ==> NoneErased(After(Init(), maxlen, acts))
  {
    if Fits(kinds, maxlen) {
      forall acts | IsRun(Init(), maxlen, acts) && |Kinds(After(Init(), maxlen, acts).accepted)| <= kinds
        ensures NoneErased(After(Init(), maxlen, acts))
      {
        RunErasesNone(Init(), maxlen, acts);
      }
    } else {
      var acts := DistinctQueueErases(maxlen);
    }
  }
}
