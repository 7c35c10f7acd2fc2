/** Which class holds a kind, who consumes it, and so which topics a stored fact is owed to. */
module Wiring {
  import Delivery
  import Journal

  type Class = nat
  type Kind = string
  type Topic = string
  type Handler = nat

  datatype Option<T> = None | Some(value: T)

  /** A class as Python sees it: its kind ("" when it names none), where it is written, and its
      method resolution order, itself first. */
  datatype ClassInfo = ClassInfo(kind: Kind, declaredAt: string, mro: seq<Class>)

  type Classes = map<Class, ClassInfo>

  predicate IsSubclass(classes: Classes, c: Class, base: Class) { c in classes && base in classes[c].mro }

  // ── The catalog: one class per kind ───────────────────────────────────────────────────────────

  class EventCatalog {
    const classes: Classes
    var byKind: map<Kind, Class>
    ghost var registered: set<Class>

    ghost predicate Valid()
      reads this
    {
      Catalogued(classes, byKind, registered)
    }

    constructor (classes: Classes)
      ensures Valid() && this.classes == classes && byKind == map[] && registered == {}
    {
      this.classes, byKind, registered := classes, map[], {};
    }

    /** Refused exactly when another declaration holds the kind. A kind never changes declaration. */
    method Register(c: Class) returns (ok: bool)
      requires Valid() && c in classes
      modifies this
      ensures Valid()
      ensures var kind := classes[c].kind;
              ok <==> kind in old(byKind) ==> classes[old(byKind)[kind]].declaredAt == classes[c].declaredAt
      ensures byKind == if ok then old(byKind)[classes[c].kind := c] else old(byKind)
      ensures registered == if ok then old(registered) + {c} else old(registered)
      ensures forall k :: k in old(byKind) ==>
        k in byKind && classes[byKind[k]].declaredAt == classes[old(byKind)[k]].declaredAt
    {
      var kind := classes[c].kind;
      if kind in byKind && classes[byKind[kind]].declaredAt != classes[c].declaredAt {
        return false;
      }
      byKind, registered := byKind[kind := c], registered + {c};
      ok := true;
    }
  }

  predicate SameDeclaration(classes: Classes, c: Class, d: Class) {
    c in classes && d in classes && classes[c].declaredAt == classes[d].declaredAt
  }

  /** The catalog's promise: every kind maps to a class of that kind, and every class ever registered is
      written where the class now holding its kind is. */
  ghost predicate Catalogued(classes: Classes, byKind: map<Kind, Class>, registered: set<Class>) {
    && (forall k :: k in byKind ==> byKind[k] in classes && classes[byKind[k]].kind == k)
    && (forall c :: c in registered ==>
          c in classes && classes[c].kind in byKind && SameDeclaration(classes, c, byKind[classes[c].kind]))
  }

  // ── The wiring ────────────────────────────────────────────────────────────────────────────────

  datatype Reaction = Reaction(name: string, topic: Topic, asActor: bool, app: string)

  type Reactions = map<Class, seq<Reaction>>

  predicate TopicTaken(reactions: Reactions, topic: Topic) {
    exists c :: c in reactions && exists i :: 0 <= i < |reactions[c]| && reactions[c][i].topic == topic
  }

  /** No two consumers, of one event or two, share a topic. */
  ghost predicate OneConsumerPerTopic(reactions: Reactions) {
    forall c, i, d, j :: c in reactions && 0 <= i < |reactions[c]| && d in reactions && 0 <= j < |reactions[d]| ==>
      reactions[c][i].topic == reactions[d][j].topic ==> c == d && i == j
  }

  function ReactionsOf(reactions: Reactions, c: Class): seq<Reaction> {
    if c in reactions then reactions[c] else []
  }

  /** Consumers of each class of `mro`, in its order. */
  function Collected(reactions: Reactions, mro: seq<Class>): (r: seq<Reaction>)
    ensures forall reaction :: reaction in r <==> exists c :: c in mro && c in reactions && reaction in reactions[c]
  {
    if mro == [] then []
    else
      assert mro == mro[..|mro| - 1] + [mro[|mro| - 1]];
      Collected(reactions, mro[..|mro| - 1]) + ReactionsOf(reactions, mro[|mro| - 1])
  }

  function TopicOf(kind: Kind, name: string): Topic { "evt:" + kind + ":" + name }

  class EventWiring {
    const classes: Classes
    var reactions: Reactions
    var spread: map<Class, seq<Handler>>

    constructor (classes: Classes)
      ensures this.classes == classes && reactions == map[] && spread == map[]
    {
      this.classes, reactions, spread := classes, map[], map[];
    }

    /** Refused exactly on a kindless class or a topic any event's consumer already has. */
    method AddConsumer(c: Class, name: string, asActor: bool, app: string) returns (topic: Option<Topic>)
      requires c in classes && OneConsumerPerTopic(reactions)
      modifies this`reactions
      ensures OneConsumerPerTopic(reactions)
      ensures topic.None? <==>
        classes[c].kind == "" || exists d, i :: d in old(reactions) && 0 <= i < |old(reactions)[d]|
                                                && old(reactions)[d][i].topic == "evt:" + classes[c].kind + ":" + name
      ensures topic.Some? ==> topic.value == "evt:" + classes[c].kind + ":" + name
      ensures reactions == if topic.None? then old(reactions)
                           else var added := Reaction(name, topic.value, asActor, app);
                                var before := if c in old(reactions) then old(reactions)[c] else [];
                                old(reactions)[c := before + [added]]
    {
      if classes[c].kind == "" {
        return None;
      }
      var t := TopicOf(classes[c].kind, name);
      if TopicTaken(reactions, t) {
        return None;
      }
      AddingKeepsTopics(reactions, c, Reaction(name, t, asActor, app));
      reactions := reactions[c := ReactionsOf(reactions, c) + [Reaction(name, t, asActor, app)]];
      topic := Some(t);
    }

    /** Consumers of the class or any of its bases. */
    method ConsumersOf(c: Class) returns (collected: seq<Reaction>)
      requires c in classes
      ensures collected == Collected(reactions, classes[c].mro)
    {
      collected := [];
      var mro := classes[c].mro;
      for n := 0 to |mro|
        invariant collected == Collected(reactions, mro[..n])
      {
        assert mro[..n + 1][..n] == mro[..n];
        collected := collected + ReactionsOf(reactions, mro[n]);
      }
      assert mro[..|mro|] == mro;
    }

    method AddSpreadHandler(c: Class, handler: Handler)
      modifies this`spread
      ensures spread == old(spread)[c := (if c in old(spread) then old(spread)[c] else []) + [handler]]
    {
      spread := spread[c := HandlersOf(spread, c) + [handler]];
    }

    /** Handlers for the class or any base, most specific first, each once. */
    method SpreadHandlersFor(c: Class) returns (handlers: seq<Handler>)
      requires c in classes
      ensures forall h :: h in handlers <==> exists k :: k in classes[c].mro && k in spread && h in spread[k]
      ensures forall i, j :: 0 <= i < j < |handlers| ==> handlers[i] != handlers[j]
      ensures InOrder(InMro(spread, classes[c].mro), handlers)
    {
      handlers := [];
      var mro := classes[c].mro;
      for n := 0 to |mro|
        invariant forall h :: h in handlers <==> exists i :: 0 <= i < n && h in HandlersOf(spread, mro[i])
        invariant forall i, j :: 0 <= i < j < |handlers| ==> handlers[i] != handlers[j]
        invariant InOrder(InMro(spread, mro[..n]), handlers)
        invariant forall h :: h in handlers <==> h in InMro(spread, mro[..n])
      {
        assert mro[..n + 1][..n] == mro[..n];
        ghost var all := InMro(spread, mro[..n]);
        handlers := WithFresh(all, handlers, HandlersOf(spread, mro[n]));
      }
      assert mro[..|mro|] == mro;
      forall h ensures h in handlers <==> exists k :: k in mro && h in HandlersOf(spread, k) {
        if h in handlers {
          var i :| 0 <= i < |mro| && h in HandlersOf(spread, mro[i]);
          assert mro[i] in mro;
        }
      }
    }
  }

  function HandlersOf(spread: map<Class, seq<Handler>>, c: Class): seq<Handler> {
    if c in spread then spread[c] else []
  }

  /** Every registration along a resolution order, the most specific class's first. */
  function InMro(spread: map<Class, seq<Handler>>, mro: seq<Class>): seq<Handler> {
    if mro == [] then [] else InMro(spread, mro[..|mro| - 1]) + HandlersOf(spread, mro[|mro| - 1])
  }

  function FirstIn(all: seq<Handler>, h: Handler): (i: nat)
    requires h in all
    ensures i < |all| && all[i] == h && forall j :: 0 <= j < i ==> all[j] != h
  {
    if all[0] == h then 0 else 1 + FirstIn(all[1..], h)
  }

  /** `handlers` come in the order in which `all` first names them. */
  ghost predicate InOrder(all: seq<Handler>, handlers: seq<Handler>) {
    && (forall i :: 0 <= i < |handlers| ==> handlers[i] in all)
    && (forall i, j :: 0 <= i < j < |handlers| ==> FirstIn(all, handlers[i]) < FirstIn(all, handlers[j]))
  }

  lemma FirstInPrefix(all: seq<Handler>, more: seq<Handler>, h: Handler)
    requires h in all
    ensures h in all + more && FirstIn(all + more, h) == FirstIn(all, h)
  {
    var i := FirstIn(all, h);
    assert (all + more)[i] == h;
    assert forall j :: 0 <= j < i ==> (all + more)[j] == all[j];
  }

  lemma OrderKept(all: seq<Handler>, handlers: seq<Handler>, h: Handler)
    requires InOrder(all, handlers) && forall x :: x in handlers <==> x in all
    ensures h in handlers ==> InOrder(all + [h], handlers)
    ensures h !in handlers ==> InOrder(all + [h], handlers + [h])
  {
    forall i | 0 <= i < |handlers|
      ensures handlers[i] in all + [h] && FirstIn(all + [h], handlers[i]) == FirstIn(all, handlers[i])
    {
      FirstInPrefix(all, [h], handlers[i]);
    }
    assert (all + [h])[|all|] == h;
  }

  /** `more` appended to `seen`, skipping what is already there. */
  method WithFresh(ghost before: seq<Handler>, seen: seq<Handler>, more: seq<Handler>) returns (all: seq<Handler>)
    requires forall i, j :: 0 <= i < j < |seen| ==> seen[i] != seen[j]
    requires InOrder(before, seen) && forall h :: h in seen <==> h in before
    ensures forall h :: h in all <==> h in seen || h in more
    ensures forall h :: h in all <==> h in before + more
    ensures forall i, j :: 0 <= i < j < |all| ==> all[i] != all[j]
    ensures InOrder(before + more, all)
  {
    all := seen;
    assert before + more[..0] == before;
    for n := 0 to |more|
      invariant forall h :: h in all <==> h in seen || h in more[..n]
      invariant forall i, j :: 0 <= i < j < |all| ==> all[i] != all[j]
      invariant InOrder(before + more[..n], all) && forall h :: h in all <==> h in before + more[..n]
    {
      assert more[..n + 1] == more[..n] + [more[n]];
      assert before + more[..n + 1] == before + more[..n] + [more[n]];
      OrderKept(before + more[..n], all, more[n]);
      if more[n] !in all {
        all := all + [more[n]];
      }
    }
    assert more[..|more|] == more;
  }

  lemma AddingKeepsTopics(reactions: Reactions, c: Class, r: Reaction)
    requires OneConsumerPerTopic(reactions) && !TopicTaken(reactions, r.topic)
    ensures OneConsumerPerTopic(reactions[c := ReactionsOf(reactions, c) + [r]])
  {
    var after := reactions[c := ReactionsOf(reactions, c) + [r]];
    assert forall d, i :: d in reactions && 0 <= i < |reactions[d]| ==> reactions[d][i].topic != r.topic;
    forall d, i | d in after && 0 <= i < |after[d]|
      ensures || (d == c && i == |after[c]| - 1)
              || (d in reactions && i < |reactions[d]| && after[d][i] == reactions[d][i])
    {
    }
  }

  // ── Forward and backward agree: `_kinds_of` inverts the walk up the bases ─────────────────────

  /** Every registered kind whose class is `base` or a subclass. */
  function KindsOf(classes: Classes, byKind: map<Kind, Class>, base: Class): set<Kind> {
    set k | k in byKind && IsSubclass(classes, byKind[k], base)
  }

  predicate HasTopic(reactions: seq<Reaction>, topic: Topic) {
    exists i :: 0 <= i < |reactions| && reactions[i].topic == topic
  }

  function AllTopics(reactions: Reactions): set<Topic> {
    set c, i | c in reactions && 0 <= i < |reactions[c]| :: reactions[c][i].topic
  }

  /** The kinds the listener reads for a topic: those of the class its consumer registered on. */
  function KindsFor(classes: Classes, byKind: map<Kind, Class>, reactions: Reactions, topic: Topic): set<Kind> {
    set c, k | c in reactions && HasTopic(reactions[c], topic) && k in KindsOf(classes, byKind, c) :: k
  }

  /** The listener's work list: each topic with the kinds it reads. */
  function DeliveryWiring(classes: Classes, byKind: map<Kind, Class>, reactions: Reactions): Delivery.Wiring {
    map topic | topic in AllTopics(reactions) :: KindsFor(classes, byKind, reactions, topic)
  }

  /** One registration stands behind each topic, so its kinds are just that class's. */
  lemma KindsOfTheOneClass(classes: Classes, byKind: map<Kind, Class>, reactions: Reactions, c: Class, topic: Topic)
    requires OneConsumerPerTopic(reactions) && c in reactions && HasTopic(reactions[c], topic)
    ensures topic in AllTopics(reactions) && KindsFor(classes, byKind, reactions, topic) == KindsOf(classes, byKind, c)
  {
    var i :| 0 <= i < |reactions[c]| && reactions[c][i].topic == topic;
    assert forall d :: d in reactions && HasTopic(reactions[d], topic) ==> d == c;
  }

  /** For every stored kind: a topic is owed its facts exactly when one of the consumers of its class, or
      of a base, feeds that topic. */
  lemma OwedTopicsAreConsumers(classes: Classes, byKind: map<Kind, Class>, reactions: Reactions, k: Kind, topic: Topic)
    requires k in byKind && byKind[k] in classes
    ensures topic in AllTopics(reactions) && k in KindsFor(classes, byKind, reactions, topic)
       <==> HasTopic(Collected(reactions, classes[byKind[k]].mro), topic)
  {
    var cls := byKind[k];
    var collected := Collected(reactions, classes[cls].mro);
    if HasTopic(collected, topic) {
      var i :| 0 <= i < |collected| && collected[i].topic == topic;
      assert collected[i] in collected;
      var c :| c in classes[cls].mro && c in reactions && collected[i] in reactions[c];
      var j :| 0 <= j < |reactions[c]| && reactions[c][j] == collected[i];
      assert reactions[c][j].topic == topic;
      assert HasTopic(reactions[c], topic) && k in KindsOf(classes, byKind, c);
    }
    if k in KindsFor(classes, byKind, reactions, topic) {
      var c :| c in reactions && HasTopic(reactions[c], topic) && k in KindsOf(classes, byKind, c);
      var j :| 0 <= j < |reactions[c]| && reactions[c][j].topic == topic;
      assert topic in AllTopics(reactions);
      assert reactions[c][j] in ReactionsOf(reactions, c);
      assert reactions[c][j] in collected;
    }
  }

  // ── Spread handlers reach fewer facts ─────────────────────────────────────────────────────────

  /** The kinds the listener scans for spread handlers: the registered classes' own. */
  function SpreadKinds(classes: Classes, spread: map<Class, seq<Handler>>): set<Kind> {
    set c | c in spread && c in classes && classes[c].kind != "" :: classes[c].kind
  }

  predicate HasHandlers(classes: Classes, spread: map<Class, seq<Handler>>, c: Class)
    requires c in classes
  {
    exists k :: k in classes[c].mro && HandlersOf(spread, k) != []
  }

  /** For every catalog the registrations can have left: a fact is scanned for spread handlers exactly when
      one is registered on some declaration of its very class. A handler on a base alone, abstract or
      concrete, never sees a subclass's fact. */
  lemma SpreadScansOwnClassOnly(
    classes: Classes, byKind: map<Kind, Class>, registered: set<Class>, spread: map<Class, seq<Handler>>, k: Kind)
    requires Catalogued(classes, byKind, registered) && k in byKind && k != ""
    requires forall c :: c in spread && c in classes && classes[c].kind != "" ==> c in registered
    ensures k in SpreadKinds(classes, spread) <==>
      exists c :: c in spread && SameDeclaration(classes, c, byKind[k]) && classes[c].kind == k
  {
    if k in SpreadKinds(classes, spread) {
      var c :| c in spread && c in classes && classes[c].kind == k;
      assert c in registered;
    }
  }

  /** Unless a class was declared anew, that is its own registration. */
  lemma SpreadScansOwnRegistration(
    classes: Classes, byKind: map<Kind, Class>, registered: set<Class>, spread: map<Class, seq<Handler>>, k: Kind)
    requires Catalogued(classes, byKind, registered) && k in byKind && k != ""
    requires forall c :: c in spread && c in classes && classes[c].kind != "" ==> c in registered
    requires forall c, d :: c in registered && SameDeclaration(classes, c, d) ==> c == d
    ensures k in SpreadKinds(classes, spread) <==> byKind[k] in spread
  {
    SpreadScansOwnClassOnly(classes, byKind, registered, spread, k);
    if k in SpreadKinds(classes, spread) {
      var c :| c in spread && SameDeclaration(classes, c, byKind[k]) && classes[c].kind == k;
      assert c in registered;
    }
  }

  /** So a handler on a base reaches a subclass's facts through the bases, and yet the scan leaves them
      out, whenever nothing is registered on the subclass itself. */
  lemma BaseHandlerIsNotScanned(
    classes: Classes, byKind: map<Kind, Class>, registered: set<Class>, spread: map<Class, seq<Handler>>, k: Kind,
    base: Class)
    requires Catalogued(classes, byKind, registered) && k in byKind && k != ""
    requires forall c :: c in spread && c in classes && classes[c].kind != "" ==> c in registered
    requires forall c :: c in spread ==> !SameDeclaration(classes, c, byKind[k])
    requires base in classes[byKind[k]].mro && HandlersOf(spread, base) != []
    ensures HasHandlers(classes, spread, byKind[k]) && k !in SpreadKinds(classes, spread)
  {
    SpreadScansOwnClassOnly(classes, byKind, registered, spread, k);
  }

  // ── Every task of every run goes to a consumer of its fact's class ────────────────────────────

  ghost predicate PairOwed(s: Delivery.State, wiring: Delivery.Wiring, p: Delivery.Pair) {
    exists f :: f in s.log.facts && f.key == p.0 && Delivery.Owed(f, wiring, p.1)
  }

  ghost predicate OwedInv(s: Delivery.State, wiring: Delivery.Wiring) {
    && (forall p :: p in s.ledger ==> PairOwed(s, wiring, p))
    && (forall i, p :: i in s.ticks && p in s.ticks[i].pairs ==> PairOwed(s, wiring, p))
  }

  lemma PairStaysOwed(s: Delivery.State, t: Delivery.State, wiring: Delivery.Wiring, p: Delivery.Pair)
    requires PairOwed(s, wiring, p) && forall f :: f in s.log.facts ==> f in t.log.facts
    ensures PairOwed(t, wiring, p)
  {
    var f :| f in s.log.facts && f.key == p.0 && Delivery.Owed(f, wiring, p.1);
    assert f in t.log.facts;
  }

  lemma FactsStay(s: Delivery.State, g: Journal.Limits, wiring: Delivery.Wiring, a: Delivery.Act)
    requires Delivery.LedgerInv(s, g) && Delivery.Enabled(s, g, wiring, a)
    ensures forall f :: f in s.log.facts ==> f in Delivery.Apply(s, g, wiring, a).log.facts
  {
    if a.Journal? && a.act.Commit? {
      Journal.PlaceAllIsSorted(s.log.facts, s.log.writers[a.act.w].facts);
    }
  }

  lemma TickedPairsAreOwed(
    s: Delivery.State, g: Journal.Limits, wiring: Delivery.Wiring, i: nat, topic: Topic, p: Delivery.Pair)
    requires Delivery.LedgerInv(s, g) && Delivery.Enabled(s, g, wiring, Delivery.TickTopic(i, topic))
    requires p in Delivery.Apply(s, g, wiring, Delivery.TickTopic(i, topic)).ticks[i].pairs && p !in s.ticks[i].pairs
    ensures PairOwed(s, wiring, p)
  {
    var cursor := Delivery.CursorOf(s, topic);
    Journal.FactsAboveMembers(s.log.facts, cursor, wiring[topic]);
    var found := Journal.FactsAbove(s.log.facts, cursor, wiring[topic]);
    Delivery.UndispatchedMembers(found, topic, s.ledger);
    assert p in Delivery.Undispatched(found, topic, s.ledger);
    var f :| f in found && f.key == p.0;
    assert Delivery.Owed(f, wiring, p.1);
  }

  lemma ApplyKeepsOwed(s: Delivery.State, g: Journal.Limits, wiring: Delivery.Wiring, a: Delivery.Act)
    requires Delivery.LedgerInv(s, g) && OwedInv(s, wiring) && Delivery.Enabled(s, g, wiring, a)
    ensures OwedInv(Delivery.Apply(s, g, wiring, a), wiring)
  {
    var t := Delivery.Apply(s, g, wiring, a);
    FactsStay(s, g, wiring, a);
    forall p | p in t.ledger ensures PairOwed(t, wiring, p) {
      assert PairOwed(s, wiring, p);
      PairStaysOwed(s, t, wiring, p);
    }
    forall i, p | i in t.ticks && p in t.ticks[i].pairs ensures PairOwed(t, wiring, p) {
      if i in s.ticks && p in s.ticks[i].pairs {
        assert PairOwed(s, wiring, p);
      } else {
        assert a.TickTopic? && a.i == i;
        TickedPairsAreOwed(s, g, wiring, i, a.topic, p);
      }
      PairStaysOwed(s, t, wiring, p);
    }
  }

  lemma {:induction false} RunKeepsOwed(
    s: Delivery.State, g: Journal.Limits, wiring: Delivery.Wiring, acts: seq<Delivery.Act>)
    requires Delivery.LedgerInv(s, g) && OwedInv(s, wiring) && Delivery.IsRun(s, g, wiring, acts)
    ensures OwedInv(Delivery.After(s, g, wiring, acts), wiring)
    decreases |acts|
  {
    if acts != [] {
      ApplyKeepsOwed(s, g, wiring, acts[0]);
      Delivery.ApplyKeepsLedgerInv(s, g, wiring, acts[0]);
      RunKeepsOwed(Delivery.Apply(s, g, wiring, acts[0]), g, wiring, acts[1..]);
    }
  }

  /** In every run of the listeners over this wiring, whatever the clocks do, each dispatched pair is a
      committed fact and a topic that a consumer of that fact's class, or of a base, feeds. */
  lemma TasksGoToConsumers(
    classes: Classes, byKind: map<Kind, Class>, reactions: Reactions, g: Journal.Limits, acts: seq<Delivery.Act>,
    p: Delivery.Pair)
    requires forall k :: k in byKind ==> byKind[k] in classes
    requires Delivery.IsRun(Delivery.Init(), g, DeliveryWiring(classes, byKind, reactions), acts)
    requires p in Delivery.After(Delivery.Init(), g, DeliveryWiring(classes, byKind, reactions), acts).ledger
    ensures var end := Delivery.After(Delivery.Init(), g, DeliveryWiring(classes, byKind, reactions), acts);
            exists f :: && f in end.log.facts && f.key == p.0 && f.kind in byKind
                        && HasTopic(Collected(reactions, classes[byKind[f.kind]].mro), p.1)
  {
    var wiring := DeliveryWiring(classes, byKind, reactions);
    RunKeepsOwed(Delivery.Init(), g, wiring, acts);
    var s := Delivery.After(Delivery.Init(), g, wiring, acts);
    assert PairOwed(s, wiring, p);
    var f :| f in s.log.facts && f.key == p.0 && Delivery.Owed(f, wiring, p.1);
    assert f.kind in KindsFor(classes, byKind, reactions, p.1);
    OwedTopicsAreConsumers(classes, byKind, reactions, f.kind, p.1);
  }
}
