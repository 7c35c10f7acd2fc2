/** The append-only journal as its readers see it: facts whose keys are minted at INSERT and which
    become visible at COMMIT, and the scan every cursor shares. */
module Journal {

  /** A UUIDv7: the instant it was minted, then its other bits. The version nibble keeps `salt`
      positive, so every minted key sorts above the nil uuid. */
  datatype Key = Key(at: nat, salt: nat)

  const NIL := Key(0, 0)

  predicate Below(a: Key, b: Key) {
    a.at < b.at || (a.at == b.at && a.salt < b.salt)
  }

  predicate AtOrBelow(a: Key, b: Key) {
    !Below(b, a)
  }

  type Kind = string

  /** `createdAt` is the column default `now()`, the instant the writing transaction began. The key's
      instant is the wall clock at the INSERT, which may be later. */
  datatype Fact = Fact(key: Key, kind: Kind, createdAt: nat)

  ghost predicate Sorted(facts: seq<Fact>) {
    forall i, j :: 0 <= i < j < |facts| ==> Below(facts[i].key, facts[j].key)
  }

  // ── The scan: `facts_above_cursor` ────────────────────────────────────────────────────────────

  /** The rows of `facts` above `cursor` whose kind is wanted, in key order. */
  function FactsAbove(facts: seq<Fact>, cursor: Key, kinds: set<Kind>): seq<Fact> {
    if facts == [] then []
    else
      (if Below(cursor, facts[0].key) && facts[0].kind in kinds then [facts[0]] else [])
      + FactsAbove(facts[1..], cursor, kinds)
  }

  /** How many leading facts of `found` began before `cutoff`. */
  function SettledCount(found: seq<Fact>, cutoff: int): (n: nat)
    ensures n <= |found|
    ensures forall i :: 0 <= i < n ==> found[i].createdAt < cutoff
    ensures n < |found| ==> found[n].createdAt >= cutoff
  {
    if found == [] || found[0].createdAt >= cutoff then 0
    else 1 + SettledCount(found[1..], cutoff)
  }

  /** Where a reader at `cursor` may move after reading `found`. */
  function NextCursor(found: seq<Fact>, cutoff: int, cursor: Key): Key {
    var n := SettledCount(found, cutoff);
    if n == 0 then cursor else found[n - 1].key
  }

  lemma {:induction false} FactsAboveMembers(facts: seq<Fact>, cursor: Key, kinds: set<Kind>)
    requires Sorted(facts)
    ensures forall f :: f in FactsAbove(facts, cursor, kinds)
                   <==> f in facts && Below(cursor, f.key) && f.kind in kinds
    ensures Sorted(FactsAbove(facts, cursor, kinds))
  {
    if facts != [] {
      FactsAboveMembers(facts[1..], cursor, kinds);
      var rest := FactsAbove(facts[1..], cursor, kinds);
      assert facts == [facts[0]] + facts[1..];
      forall i | 0 <= i < |rest|
        ensures Below(facts[0].key, rest[i].key)
      {
        assert rest[i] in facts[1..];
      }
    }
  }

  /** The next cursor never moves back, and it is `cursor` itself or the key of a visible fact of the
      wanted kinds that began before the cutoff, and it passes none that did not: the prefix is contiguous. */
  lemma NextCursorIsSettled(facts: seq<Fact>, cursor: Key, kinds: set<Kind>, cutoff: int)
    requires Sorted(facts)
    ensures var c := NextCursor(FactsAbove(facts, cursor, kinds), cutoff, cursor);
            && AtOrBelow(cursor, c)
            && (c == cursor || exists f :: f in facts && f.key == c && f.createdAt < cutoff)
            && (forall f :: f in FactsAbove(facts, cursor, kinds) && AtOrBelow(f.key, c) ==> f.createdAt < cutoff)
  {
    FactsAboveMembers(facts, cursor, kinds);
    var found := FactsAbove(facts, cursor, kinds);
    var n := SettledCount(found, cutoff);
    forall f | f in found && AtOrBelow(f.key, NextCursor(found, cutoff, cursor)) ensures f.createdAt < cutoff {
      var i :| 0 <= i < |found| && found[i] == f;
      assert n > 0 && i >= n ==> Below(found[n - 1].key, found[i].key);
    }
    if n > 0 {
      assert found[n - 1] in found;
    }
  }

  /** The visible facts a reader at `cursor` wants. */
  predicate Wants(cursor: Key, kinds: set<Kind>, f: Fact) { Below(cursor, f.key) && f.kind in kinds }

  /** `next` is the end of the settled prefix: `cursor` or a wanted fact; none passed is unsettled; and if
      any wanted fact is left, the first of them is unsettled. */
  ghost predicate EndsSettledPrefix(facts: seq<Fact>, cursor: Key, kinds: set<Kind>, cutoff: int, next: Key) {
    && (next == cursor || exists f :: f in facts && Wants(cursor, kinds, f) && f.key == next)
    && (forall f :: f in facts && Wants(cursor, kinds, f) && AtOrBelow(f.key, next) ==> f.createdAt < cutoff)
    && ((forall f :: f in facts && Wants(cursor, kinds, f) ==> AtOrBelow(f.key, next))
        || exists first :: first in facts && Wants(cursor, kinds, first)
                           && HoldsBack(facts, cursor, kinds, cutoff, next, first))
  }

  ghost predicate HoldsBack(facts: seq<Fact>, cursor: Key, kinds: set<Kind>, cutoff: int, next: Key, first: Fact) {
    && first.createdAt >= cutoff
    && forall f :: f in facts && Wants(cursor, kinds, f) ==> AtOrBelow(f.key, next) || AtOrBelow(first.key, f.key)
  }

  /** The next cursor reaches the end of the settled prefix, and goes no further. */
  lemma NextCursorEndsSettledPrefix(facts: seq<Fact>, cursor: Key, kinds: set<Kind>, cutoff: int)
    requires Sorted(facts)
    ensures EndsSettledPrefix(facts, cursor, kinds, cutoff,
                              NextCursor(FactsAbove(facts, cursor, kinds), cutoff, cursor))
  {
    FactsAboveMembers(facts, cursor, kinds);
    PrefixEnds(facts, cursor, kinds, cutoff, FactsAbove(facts, cursor, kinds),
               SettledCount(FactsAbove(facts, cursor, kinds), cutoff));
  }

  lemma PrefixEnds(facts: seq<Fact>, cursor: Key, kinds: set<Kind>, cutoff: int, found: seq<Fact>, n: nat)
    requires Sorted(found) && n <= |found|
    requires forall f :: f in found <==> f in facts && Wants(cursor, kinds, f)
    requires forall j :: 0 <= j < n ==> found[j].createdAt < cutoff
    requires n < |found| ==> found[n].createdAt >= cutoff
    ensures EndsSettledPrefix(facts, cursor, kinds, cutoff, if n == 0 then cursor else found[n - 1].key)
  {
    var next := if n == 0 then cursor else found[n - 1].key;
    assert n > 0 ==> found[n - 1] in found;
    forall f | f in facts && Wants(cursor, kinds, f)
      ensures AtOrBelow(f.key, next) ==> f.createdAt < cutoff
      ensures AtOrBelow(f.key, next) || (n < |found| && AtOrBelow(found[n].key, f.key))
    {
      assert f in found;
      var i :| 0 <= i < |found| && found[i] == f;
      assert n > 0 ==> i == n - 1 || Below(found[i].key, next) || Below(next, found[i].key);
    }
    if n < |found| {
      assert found[n] in found && HoldsBack(facts, cursor, kinds, cutoff, next, found[n]);
    }
  }

  /** The end of the settled prefix has passed a wanted fact exactly when everything wanted up to that fact
      began before the cutoff; and there is only one such end. */
  lemma PassedIffSettled(facts: seq<Fact>, cursor: Key, kinds: set<Kind>, cutoff: int, next: Key, f: Fact)
    requires EndsSettledPrefix(facts, cursor, kinds, cutoff, next) && f in facts && Wants(cursor, kinds, f)
    ensures AtOrBelow(f.key, next)
       <==> forall g :: g in facts && Wants(cursor, kinds, g) && AtOrBelow(g.key, f.key) ==> g.createdAt < cutoff
  {
  }

  lemma SettledPrefixIsUnique(facts: seq<Fact>, cursor: Key, kinds: set<Kind>, cutoff: int, a: Key, b: Key)
    requires EndsSettledPrefix(facts, cursor, kinds, cutoff, a) && EndsSettledPrefix(facts, cursor, kinds, cutoff, b)
    ensures a == b
  {
    if a != cursor && !AtOrBelow(a, b) {
      var f :| f in facts && Wants(cursor, kinds, f) && f.key == a;
      PassedIffSettled(facts, cursor, kinds, cutoff, a, f);
      PassedIffSettled(facts, cursor, kinds, cutoff, b, f);
    }
    if b != cursor && !AtOrBelow(b, a) {
      var f :| f in facts && Wants(cursor, kinds, f) && f.key == b;
      PassedIffSettled(facts, cursor, kinds, cutoff, a, f);
      PassedIffSettled(facts, cursor, kinds, cutoff, b, f);
    }
  }

  // ── Writers ───────────────────────────────────────────────────────────────────────────────────

  /** What is known of every transaction that commits: it mints a key at most `lag` after it began,
      commits at most `open` after minting each key, and lasts at most `whole`. `settle` is the
      reader's SETTLE_SECONDS. */
  datatype Limits = Limits(settle: nat, lag: nat, open: nat, whole: nat) {
    function Lag(): nat { if lag < whole then lag else whole }

    function Open(): nat { if open < whole then open else whole }

    /** The settle window covers the longest begin-to-mint delay of one transaction plus the longest
        mint-to-commit delay of another. */
    predicate Covered() { Lag() + Open() <= settle }
  }

  datatype Writer = Writer(began: nat, facts: seq<Fact>)

  /** `facts` holds the committed rows in primary-key order. */
  datatype Log = Log(now: nat, writers: map<nat, Writer>, facts: seq<Fact>)

  datatype Act =
    | Elapse(delay: nat)
    | Begin(w: nat)
    | Insert(w: nat, kind: Kind, salt: nat)
    | Commit(w: nat)
    | Abort(w: nat)

  ghost predicate Enabled(l: Log, g: Limits, a: Act) {
    match a
    case Elapse(_) => true
    case Begin(w) => w !in l.writers
    case Insert(w, _, salt) => w in l.writers && salt > 0 && l.now <= l.writers[w].began + g.lag
    case Commit(w) =>
      && w in l.writers
      && l.now <= l.writers[w].began + g.whole
      && (forall f :: f in l.writers[w].facts ==> l.now <= f.key.at + g.open)
      && FreshKeys(l.facts, l.writers[w].facts)
    case Abort(w) => w in l.writers
  }

  /** The primary key: no key twice. */
  ghost predicate FreshKeys(facts: seq<Fact>, added: seq<Fact>) {
    && (forall f, a :: f in facts && a in added ==> f.key != a.key)
    && (forall i, j :: 0 <= i < j < |added| ==> added[i].key != added[j].key)
  }

  function Apply(l: Log, a: Act): Log {
    match a
    case Elapse(delay) => l.(now := l.now + delay)
    case Begin(w) => l.(writers := l.writers[w := Writer(l.now, [])])
    case Insert(w, kind, salt) =>
      if w !in l.writers then l
      else
        var writer := l.writers[w];
        var fact := Fact(Key(l.now, salt), kind, writer.began);
        l.(writers := l.writers[w := writer.(facts := writer.facts + [fact])])
    case Commit(w) =>
      if w !in l.writers then l
      else l.(writers := l.writers - {w}, facts := PlaceAll(l.facts, l.writers[w].facts))
    case Abort(w) => l.(writers := l.writers - {w})
  }

  /** `facts` with `f` at its place in key order. */
  function Place(facts: seq<Fact>, f: Fact): seq<Fact> {
    if facts == [] || Below(f.key, facts[0].key) then [f] + facts
    else [facts[0]] + Place(facts[1..], f)
  }

  function PlaceAll(facts: seq<Fact>, added: seq<Fact>): seq<Fact>
    decreases |added|
  {
    if added == [] then facts
    else PlaceAll(Place(facts, added[0]), added[1..])
  }

  lemma {:induction false} PlaceIsSorted(facts: seq<Fact>, f: Fact)
    requires Sorted(facts)
    requires forall x :: x in facts ==> x.key != f.key
    ensures Sorted(Place(facts, f))
    ensures forall x :: x in Place(facts, f) <==> x in facts || x == f
  {
    if facts == [] || Below(f.key, facts[0].key) {
    } else {
      assert facts == [facts[0]] + facts[1..];
      PlaceIsSorted(facts[1..], f);
      var rest := Place(facts[1..], f);
      forall i | 0 <= i < |rest|
        ensures Below(facts[0].key, rest[i].key)
      {
        assert rest[i] in rest;
        assert facts[0] in facts;
      }
    }
  }

  lemma {:induction false} PlaceAllIsSorted(facts: seq<Fact>, added: seq<Fact>)
    requires Sorted(facts) && FreshKeys(facts, added)
    ensures Sorted(PlaceAll(facts, added))
    ensures forall x :: x in PlaceAll(facts, added) <==> x in facts || x in added
    decreases |added|
  {
    if added != [] {
      assert added == [added[0]] + added[1..];
      PlaceIsSorted(facts, added[0]);
      PlaceAllIsSorted(Place(facts, added[0]), added[1..]);
    }
  }

  lemma PlaceAllOne(facts: seq<Fact>, f: Fact)
    ensures PlaceAll(facts, [f]) == Place(facts, f)
  {
    assert [f][1..] == [];
    assert PlaceAll(Place(facts, f), []) == Place(facts, f);
  }

  // ── What every run of the writers keeps ───────────────────────────────────────────────────────

  ghost predicate Minted(f: Fact, began: nat, now: nat, lag: nat) {
    f.key.salt > 0 && f.createdAt == began <= f.key.at <= now && f.key.at <= began + lag
  }

  ghost predicate Valid(l: Log, g: Limits) {
    && Sorted(l.facts)
    && (forall f :: f in l.facts ==> Minted(f, f.createdAt, l.now, g.Lag()))
    && (forall w :: w in l.writers ==>
          && l.writers[w].began <= l.now
          && forall f :: f in l.writers[w].facts ==> Minted(f, l.writers[w].began, l.now, g.lag))
  }

  lemma ApplyKeepsValid(l: Log, g: Limits, a: Act)
    requires Valid(l, g) && Enabled(l, g, a)
    ensures Valid(Apply(l, a), g)
  {
    if a.Commit? {
      PlaceAllIsSorted(l.facts, l.writers[a.w].facts);
    }
  }

  /** `c` lies so far back that nothing still to be committed can carry a key at or below it. */
  predicate Sealed(l: Log, g: Limits, c: Key) {
    c == NIL || c.at + g.Open() < l.now
  }

  /** A fact that surfaces, in whatever order the writers commit, surfaces above every sealed
      cursor. */
  lemma SurfacesAboveSealed(l: Log, g: Limits, a: Act, c: Key, f: Fact)
    requires Valid(l, g) && Enabled(l, g, a) && Sealed(l, g, c)
    requires f in Apply(l, a).facts && f !in l.facts
    ensures Below(c, f.key)
  {
    PlaceAllIsSorted(l.facts, l.writers[a.w].facts);
  }

  /** When the window covers the delays, the cursor a reader takes from a sealed one is sealed. */
  lemma NextCursorIsSealed(l: Log, g: Limits, cursor: Key, kinds: set<Kind>, started: nat)
    requires Valid(l, g) && g.Covered() && Sealed(l, g, cursor) && started <= l.now
    ensures Sealed(l, g, NextCursor(FactsAbove(l.facts, cursor, kinds), started - g.settle, cursor))
  {
    NextCursorIsSettled(l.facts, cursor, kinds, started - g.settle);
  }
}
