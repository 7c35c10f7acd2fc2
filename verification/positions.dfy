/** Rows kept in a `position` order: what adding, removing and moving a row does to the list they show. */
module Positions {

  type Key = nat

  datatype Option<T> = None | Some(value: T)

  /** The position column, by row key. */
  type Rows = map<Key, int>

  ghost predicate Distinct(keys: seq<Key>) { forall i, j :: 0 <= i < j < |keys| ==> keys[i] != keys[j] }

  /** `keys` lists the rows in strictly increasing position. */
  ghost predicate Shows(rows: Rows, keys: seq<Key>) {
    && (forall k :: k in keys <==> k in rows)
    && (forall i, j :: 0 <= i < j < |keys| ==> rows[keys[i]] < rows[keys[j]])
  }

  lemma FirstIsLeast(rows: Rows, keys: seq<Key>)
    requires Shows(rows, keys) && keys != []
    ensures keys[0] in rows && forall k :: k in rows && k != keys[0] ==> rows[keys[0]] < rows[k]
  {
    assert keys[0] in keys;
    forall k | k in rows && k != keys[0] ensures rows[keys[0]] < rows[k] {
      var i :| 0 <= i < |keys| && keys[i] == k;
    }
  }

  lemma SameFirst(rows: Rows, a: seq<Key>, b: seq<Key>)
    requires Shows(rows, a) && Shows(rows, b) && a != []
    ensures b != [] && a[0] == b[0]
  {
    assert a[0] in b;
    FirstIsLeast(rows, a);
    FirstIsLeast(rows, b);
  }

  /** The rows determine the list they show. */
  lemma {:induction false} ShowsIsUnique(rows: Rows, a: seq<Key>, b: seq<Key>)
    requires Shows(rows, a) && Shows(rows, b)
    ensures a == b
    decreases |a|
  {
    if a != [] {
      SameFirst(rows, a, b);
      DropFirst(rows, a);
      DropFirst(rows, b);
      ShowsIsUnique(rows - {a[0]}, a[1..], b[1..]);
      assert a == [a[0]] + a[1..] && b == [b[0]] + b[1..];
    } else if b != [] {
      SameFirst(rows, b, a);
    }
  }

  lemma {:induction false} ShownCount(rows: Rows, items: seq<Key>)
    requires Shows(rows, items)
    ensures |items| == |rows|
    decreases |items|
  {
    if items == [] {
      assert rows.Keys == {};
    } else {
      DropFirst(rows, items);
      ShownCount(rows - {items[0]}, items[1..]);
      assert items[0] in items;
      assert (rows - {items[0]}).Keys == rows.Keys - {items[0]};
    }
  }

  lemma DropFirst(rows: Rows, keys: seq<Key>)
    requires Shows(rows, keys) && keys != []
    ensures Shows(rows - {keys[0]}, keys[1..])
  {
    forall k ensures k in keys[1..] <==> k in rows && k != keys[0] {
      if k in keys && k != keys[0] {
        var i :| 0 <= i < |keys| && keys[i] == k;
        assert keys[1..][i - 1] == k;
      }
      if k in keys[1..] {
        var i :| 0 <= i < |keys| - 1 && keys[1..][i] == k;
        assert rows[keys[0]] < rows[keys[i + 1]];
      }
    }
  }

  // ── The list operations, and what they do to positions ────────────────────────────────────────

  datatype Op =
    | Prepend(key: Key)
    | Append(key: Key)
    | Remove(key: Key)
    | Move(key: Key, above: Option<Key>)

  function Others(items: seq<Key>, key: Key): (r: seq<Key>)
    ensures forall k :: k in r <==> k in items && k != key
  {
    if items == [] then []
    else if items[|items| - 1] == key then Others(items[..|items| - 1], key)
    else Others(items[..|items| - 1], key) + [items[|items| - 1]]
  }

  /** Where `key` first stands. */
  function IndexOf(items: seq<Key>, key: Key): (i: nat)
    requires key in items
    ensures i < |items| && items[i] == key
  {
    if items[0] == key then 0 else 1 + IndexOf(items[1..], key)
  }

  /** `items` with `key` directly above `above`, or last; nothing when either is gone. */
  function Moved(items: seq<Key>, key: Key, above: Option<Key>): Option<seq<Key>> {
    if key !in items then None
    else
      var others := Others(items, key);
      if above == None then Some(others + [key])
      else if above.value !in others then None
      else
        var i := IndexOf(others, above.value);
        Some(others[..i] + [key] + others[i..])
  }

  /** What a user sees after each operation. */
  function Listed(items: seq<Key>, op: Op): seq<Key> {
    match op
    case Prepend(key) => [key] + items
    case Append(key) => items + [key]
    case Remove(key) => Others(items, key)
    case Move(key, above) => if Moved(items, key, above).None? then items else Moved(items, key, above).value
  }

  /** Positions exactly 0, 1, … */
  ghost predicate Dense(rows: Rows, items: seq<Key>) {
    forall i :: 0 <= i < |items| ==> items[i] in rows && rows[items[i]] == i
  }

  /** The largest position, and 0 of none: the query's `max` falls back to it. */
  ghost predicate IsMax(rows: Rows, m: int) {
    if rows == map[] then m == 0
    else (exists k :: k in rows && rows[k] == m) && forall k :: k in rows ==> rows[k] <= m
  }

  /** What each operation writes. */
  ghost predicate Writes(rows: Rows, items: seq<Key>, op: Op, after: Rows) {
    match op
    case Prepend(key) => after == (map k | k in rows :: rows[k] + 1)[key := 0]
    case Append(key) => exists m :: IsMax(rows, m) && after == rows[key := m + 1]
    case Remove(key) => after == rows - {key}
    case Move(key, above) =>
      if Moved(items, key, above).None? then after == rows
      else after.Keys == rows.Keys && Dense(after, Moved(items, key, above).value)
  }

  /** A new row's key is new, and no position is negative. */
  ghost predicate Allowed(rows: Rows, op: Op) {
    && (op.Prepend? || op.Append? ==> op.key !in rows)
    && (forall k :: k in rows ==> rows[k] >= 0)
  }

  // ── A move ────────────────────────────────────────────────────────────────────────────────────

  lemma {:induction false} OthersAbsent(items: seq<Key>, key: Key)
    requires key !in items
    ensures Others(items, key) == items
  {
    if items != [] {
      OthersAbsent(items[..|items| - 1], key);
    }
  }

  lemma {:induction false} OthersOf(items: seq<Key>, key: Key)
    requires Distinct(items)
    ensures key in items ==> multiset(items) == multiset(Others(items, key)) + multiset{key}
    ensures Distinct(Others(items, key))
  {
    if items != [] {
      var init, last := items[..|items| - 1], items[|items| - 1];
      OthersOf(init, key);
      assert items == init + [last];
      assert last !in init;
      if last == key {
        OthersAbsent(init, key);
      }
    }
  }

  lemma {:induction false} OthersConcat(a: seq<Key>, b: seq<Key>, key: Key)
    ensures Others(a + b, key) == Others(a, key) + Others(b, key)
    decreases |b|
  {
    if b == [] {
      assert a + b == a;
    } else {
      OthersConcat(a, b[..|b| - 1], key);
      assert (a + b)[..|a + b| - 1] == a + b[..|b| - 1];
    }
  }

  lemma InsertedOthers(front: seq<Key>, back: seq<Key>, key: Key)
    requires key !in front && key !in back
    ensures Others(front + [key] + back, key) == front + back
  {
    OthersAbsent(front, key);
    OthersAbsent(back, key);
    OthersConcat(front + [key], back, key);
    OthersConcat(front, [key], key);
    assert Others([key], key) == [];
  }

  lemma InsertedDistinct(front: seq<Key>, back: seq<Key>, key: Key)
    requires key !in front && key !in back && Distinct(front + back)
    ensures Distinct(front + [key] + back)
  {
    var all, rest := front + [key] + back, front + back;
    assert forall i :: 0 <= i < |all| && i != |front| ==> all[i] == rest[if i < |front| then i else i - 1];
    assert forall i :: 0 <= i < |front| ==> all[i] == front[i] != key;
    assert forall i :: |front| < i < |all| ==> all[i] == back[i - |front| - 1] != key;
  }

  /** `key` is last, or directly above its target. */
  ghost predicate Placed(items: seq<Key>, key: Key, above: Option<Key>) {
    match above
    case None => items != [] && items[|items| - 1] == key
    case Some(target) => exists i :: 0 <= i < |items| - 1 && items[i] == key && items[i + 1] == target
  }

  lemma InsertInto(others: seq<Key>, i: nat, key: Key, above: Option<Key>)
    requires Distinct(others) && key !in others && i <= |others|
    requires if above.None? then i == |others| else i < |others| && others[i] == above.value
    ensures var moved := others[..i] + [key] + others[i..];
            && multiset(moved) == multiset(others) + multiset{key}
            && Distinct(moved)
            && Others(moved, key) == others
            && Placed(moved, key, above)
  {
    var front, back := others[..i], others[i..];
    assert others == front + back;
    assert forall k :: k in front || k in back ==> k in others;
    InsertedOthers(front, back, key);
    InsertedDistinct(front, back, key);
    InsertedMultiset(front, back, key);
    InsertedPlace(others, i, key, above);
  }

  lemma InsertedMultiset(front: seq<Key>, back: seq<Key>, key: Key)
    ensures multiset(front + [key] + back) == multiset(front + back) + multiset{key}
  {
    assert multiset(front + [key] + back) == multiset(front) + multiset{key} + multiset(back);
  }

  lemma InsertedPlace(others: seq<Key>, i: nat, key: Key, above: Option<Key>)
    requires i <= |others| && if above.None? then i == |others| else i < |others| && others[i] == above.value
    ensures Placed(others[..i] + [key] + others[i..], key, above)
  {
    var moved := others[..i] + [key] + others[i..];
    assert moved[i] == key && (above.Some? ==> moved[i + 1] == others[i]);
  }

  /** A move succeeds unless its row or target is gone or is the row itself. It permutes the list, keeps
      the others' order, and puts the row directly above its target, or last. */
  lemma MoveIsWhatItSays(items: seq<Key>, key: Key, above: Option<Key>)
    requires Distinct(items)
    ensures Moved(items, key, above).None? <==>
      key !in items || (above.Some? && (above.value !in items || above.value == key))
    ensures var moved := Moved(items, key, above);
            moved.Some? ==>
              && multiset(moved.value) == multiset(items)
              && Distinct(moved.value)
              && Others(moved.value, key) == Others(items, key)
              && Placed(moved.value, key, above)
  {
    var moved := Moved(items, key, above);
    if moved.Some? {
      var others := Others(items, key);
      OthersOf(items, key);
      if above.None? {
        InsertInto(others, |others|, key, above);
        assert others[..|others|] + [key] + others[|others|..] == others + [key];
      } else {
        InsertInto(others, IndexOf(others, above.value), key, above);
      }
    }
  }

  /** Those four facts leave one list. */
  lemma PlacedIsUnique(a: seq<Key>, b: seq<Key>, key: Key, above: Option<Key>)
    requires Distinct(a) && Distinct(b) && Others(a, key) == Others(b, key)
    requires Placed(a, key, above) && Placed(b, key, above)
    ensures a == b
  {
    var i := Rebuilt(a, key, above);
    var j := Rebuilt(b, key, above);
    OthersOf(a, key);
  }

  lemma Rebuilt(items: seq<Key>, key: Key, above: Option<Key>) returns (i: nat)
    requires Distinct(items) && Placed(items, key, above)
    ensures i <= |Others(items, key)| && items == Others(items, key)[..i] + [key] + Others(items, key)[i..]
    ensures above.None? ==> i == |Others(items, key)|
    ensures above.Some? ==> i < |Others(items, key)| && Others(items, key)[i] == above.value
  {
    i := Spot(items, key, above);
    SplitAt(items, i);
    var others := items[..i] + items[i + 1..];
    assert others[..i] == items[..i] && others[i..] == items[i + 1..];
  }

  lemma Spot(items: seq<Key>, key: Key, above: Option<Key>) returns (i: nat)
    requires Placed(items, key, above)
    ensures i < |items| && items[i] == key
    ensures if above.None? then i == |items| - 1 else i < |items| - 1 && items[i + 1] == above.value
  {
    if above.None? {
      i := |items| - 1;
    } else {
      i :| 0 <= i < |items| - 1 && items[i] == key && items[i + 1] == above.value;
    }
  }

  lemma SplitAt(items: seq<Key>, i: nat)
    requires Distinct(items) && i < |items|
    ensures Others(items, items[i]) == items[..i] + items[i + 1..]
  {
    var front, back := items[..i], items[i + 1..];
    assert items == front + [items[i]] + back;
    OthersConcat(front + [items[i]], back, items[i]);
    OthersConcat(front, [items[i]], items[i]);
    assert Others([items[i]], items[i]) == [];
    OthersAbsent(front, items[i]);
    OthersAbsent(back, items[i]);
  }

  // ── Positions refine the list ─────────────────────────────────────────────────────────────────

  lemma ShowsDistinct(rows: Rows, items: seq<Key>)
    requires Shows(rows, items)
    ensures Distinct(items)
  {
  }

  lemma OthersShow(rows: Rows, items: seq<Key>, key: Key)
    requires Shows(rows, items)
    ensures Shows(rows - {key}, Others(items, key))
  {
    ShowsDistinct(rows, items);
    if key in items {
      var i := IndexOf(items, key);
      SplitAt(items, i);
      StillAscending(rows, items, i);
    } else {
      OthersAbsent(items, key);
    }
  }

  lemma StillAscending(rows: Rows, items: seq<Key>, i: nat)
    requires Shows(rows, items) && i < |items|
    ensures var rest := items[..i] + items[i + 1..];
            forall a, b :: 0 <= a < b < |rest| ==> rest[a] in rows && rest[b] in rows && rows[rest[a]] < rows[rest[b]]
  {
    var rest := items[..i] + items[i + 1..];
    forall a, b | 0 <= a < b < |rest| ensures rest[a] in rows && rest[b] in rows && rows[rest[a]] < rows[rest[b]] {
      var a0, b0 := if a < i then a else a + 1, if b < i then b else b + 1;
      assert rest[a] == items[a0] && rest[b] == items[b0];
      assert items[a0] in items && items[b0] in items;
    }
  }

  lemma AppendShows(rows: Rows, items: seq<Key>, key: Key, m: int)
    requires Shows(rows, items) && key !in rows && IsMax(rows, m)
    ensures Shows(rows[key := m + 1], items + [key])
  {
    var after, all := rows[key := m + 1], items + [key];
    forall i, j | 0 <= i < j < |all| ensures after[all[i]] < after[all[j]] {
      assert all[i] in rows;
      if j < |items| {
        assert all[j] in rows;
      }
    }
  }

  lemma PrependShows(rows: Rows, items: seq<Key>, key: Key)
    requires Shows(rows, items) && key !in rows && forall k :: k in rows ==> rows[k] >= 0
    ensures Shows((map k | k in rows :: rows[k] + 1)[key := 0], [key] + items)
  {
    var all := [key] + items;
    forall j | 0 < j < |all| ensures all[j] == items[j - 1] && all[j] in rows {
      assert items[j - 1] in items;
    }
  }

  lemma MoveShows(rows: Rows, items: seq<Key>, moved: seq<Key>, after: Rows)
    requires Shows(rows, items) && multiset(moved) == multiset(items)
    requires after.Keys == rows.Keys && Dense(after, moved)
    ensures Shows(after, moved) && forall k :: k in after ==> after[k] >= 0
  {
    SameMembers(items, moved);
    forall k | k in after ensures after[k] >= 0 {
      assert k in moved;
    }
  }

  /** One operation on the rows is the plain list operation on what they show. */
  lemma WritesRefineTheList(rows: Rows, items: seq<Key>, op: Op, after: Rows)
    requires Shows(rows, items) && Allowed(rows, op) && Writes(rows, items, op, after)
    ensures Shows(after, Listed(items, op))
    ensures forall k :: k in after ==> after[k] >= 0
  {
    match op
    case Prepend(key) => PrependShows(rows, items, key);
    case Append(key) =>
      var m :| IsMax(rows, m) && after == rows[key := m + 1];
      AppendShows(rows, items, key, m);
    case Remove(key) => OthersShow(rows, items, key);
    case Move(key, above) =>
      ShowsDistinct(rows, items);
      var moved := Moved(items, key, above);
      if moved.Some? {
        MoveIsWhatItSays(items, key, above);
        MoveShows(rows, items, moved.value, after);
      }
  }

  lemma SameMembers(a: seq<Key>, b: seq<Key>)
    requires multiset(a) == multiset(b)
    ensures forall k :: k in a <==> k in b
  {
    forall k ensures k in a <==> k in b {
      assert k in a <==> k in multiset(a);
      assert k in b <==> k in multiset(b);
    }
  }

  /** `ops` applied one after another to the rows, whatever they show. */
  ghost predicate IsRun(rows: Rows, items: seq<Key>, ops: seq<Op>, states: seq<Rows>)
    decreases |ops|
  {
    && |states| == |ops| + 1
    && states[0] == rows
    && (ops != [] ==>
          && Allowed(rows, ops[0])
          && Writes(rows, items, ops[0], states[1])
          && IsRun(states[1], Listed(items, ops[0]), ops[1..], states[1..]))
  }

  function ListedAll(items: seq<Key>, ops: seq<Op>): seq<Key>
    decreases |ops|
  {
    if ops == [] then items else ListedAll(Listed(items, ops[0]), ops[1..])
  }

  /** Any mix of prepends, appends, removals and moves: the rows show what the list operations give, with
      distinct, never negative positions. */
  lemma {:induction false} RunRefinesTheList(rows: Rows, items: seq<Key>, ops: seq<Op>, states: seq<Rows>)
    requires Shows(rows, items) && IsRun(rows, items, ops, states) && forall k :: k in rows ==> rows[k] >= 0
    ensures Shows(states[|ops|], ListedAll(items, ops))
    ensures forall k :: k in states[|ops|] ==> states[|ops|][k] >= 0
    decreases |ops|
  {
    if ops != [] {
      WritesRefineTheList(rows, items, ops[0], states[1]);
      RunRefinesTheList(states[1], Listed(items, ops[0]), ops[1..], states[1..]);
    }
  }

  /** When positions are dense after an operation that finds them dense: always after a prepend or a
      successful move, after an append unless the list was empty, after a removal only of the last. */
  lemma DenseAfter(rows: Rows, items: seq<Key>, op: Op, after: Rows)
    requires Shows(rows, items) && Dense(rows, items) && Allowed(rows, op) && Writes(rows, items, op, after)
    ensures Dense(after, Listed(items, op)) <==>
      match op
      case Prepend(_) => true
      case Append(_) => items != []
      case Remove(key) => key !in items || items[|items| - 1] == key
      case Move(_, _) => true
  {
    ShowsDistinct(rows, items);
    match op
    case Prepend(key) => DenseAfterPrepend(rows, items, key);
    case Append(key) =>
      var m :| IsMax(rows, m) && after == rows[key := m + 1];
      DenseAfterAppend(rows, items, key, m);
    case Remove(key) => DenseAfterRemove(rows, items, key);
    case Move(key, above) =>
  }

  lemma DenseAfterPrepend(rows: Rows, items: seq<Key>, key: Key)
    requires Shows(rows, items) && Dense(rows, items) && key !in rows
    ensures Dense((map k | k in rows :: rows[k] + 1)[key := 0], [key] + items)
  {
    var all := [key] + items;
    forall i | 0 < i < |all| ensures all[i] == items[i - 1] && items[i - 1] in rows {
    }
  }

  lemma DenseAfterAppend(rows: Rows, items: seq<Key>, key: Key, m: int)
    requires Shows(rows, items) && Dense(rows, items) && key !in rows && IsMax(rows, m)
    ensures Dense(rows[key := m + 1], items + [key]) <==> items != []
  {
    var after, all := rows[key := m + 1], items + [key];
    assert all[|items|] == key;
    if items == [] {
      assert forall k :: k in rows ==> k in items;
      assert rows == map[];
    } else {
      assert items[|items| - 1] in rows;
      var k :| k in rows && rows[k] == m;
      assert k in items;
      var i :| 0 <= i < |items| && items[i] == k;
      assert m == |items| - 1;
      forall i | 0 <= i < |items| ensures all[i] in after && after[all[i]] == i {
        assert all[i] == items[i];
      }
    }
  }

  lemma DenseAfterRemove(rows: Rows, items: seq<Key>, key: Key)
    requires Distinct(items) && Dense(rows, items)
    ensures Dense(rows - {key}, Others(items, key)) <==> key !in items || items[|items| - 1] == key
  {
    if key in items {
      var i := IndexOf(items, key);
      SplitAt(items, i);
      DenseWithoutOne(rows, items, i);
    } else {
      OthersAbsent(items, key);
    }
  }

  lemma DenseWithoutOne(rows: Rows, items: seq<Key>, i: nat)
    requires Distinct(items) && Dense(rows, items) && i < |items|
    ensures Dense(rows - {items[i]}, items[..i] + items[i + 1..]) <==> i == |items| - 1
    ensures items[|items| - 1] == items[i] <==> i == |items| - 1
  {
    var rest := items[..i] + items[i + 1..];
    if i == |items| - 1 {
      assert forall j :: 0 <= j < |rest| ==> rest[j] == items[j];
    } else {
      assert rest[i] == items[i + 1];
    }
  }

  // ── The repository ────────────────────────────────────────────────────────────────────────────

  class PositionedRepository {
    var rows: Rows
    ghost var items: seq<Key>

    ghost predicate Valid()
      reads this
    {
      Shows(rows, items) && forall k :: k in rows ==> rows[k] >= 0
    }

    constructor ()
      ensures Valid() && items == []
    {
      rows, items := map[], [];
    }

    /** Every row in position order. */
    method All() returns (keys: seq<Key>)
      requires Valid()
      ensures keys == items
    {
      keys := [];
      ShownCount(rows, items);
      while |keys| < |rows|
        invariant |keys| <= |items| == |rows| && keys == items[..|keys|]
      {
        TailIsLeft(rows, items, |keys|);
        var left := rows.Keys - (set k | k in keys);
        var k := LeastOf(rows, left, items[|keys|]);
        assert items[..|keys| + 1] == items[..|keys|] + [k];
        keys := keys + [k];
      }
    }

    /** A to-do's `add`: every row one down, the new one on top. */
    method Prepend(key: Key)
      requires Valid() && key !in rows
      modifies this
      ensures Valid() && items == [key] + old(items)
      ensures Writes(old(rows), old(items), Op.Prepend(key), rows)
    {
      var all := All();
      var shifted := rows;
      for n := 0 to |all|
        invariant shifted.Keys == rows.Keys
        invariant forall i :: 0 <= i < |all| ==> shifted[all[i]] == rows[all[i]] + if i < n then 1 else 0
      {
        shifted := shifted[all[n] := shifted[all[n]] + 1];
      }
      assert shifted == map k | k in rows :: rows[k] + 1 by {
        forall k | k in rows ensures shifted[k] == rows[k] + 1 {
          assert k in all;
        }
      }
      WritesRefineTheList(rows, items, Op.Prepend(key), shifted[key := 0]);
      rows, items := shifted[key := 0], [key] + items;
    }

    /** The query's largest position, 0 when there is none. */
    method MaxPosition() returns (m: int)
      requires Valid()
      ensures IsMax(rows, m)
    {
      if rows == map[] {
        return 0;
      }
      TopExists(rows, items);
      var top :| top in rows && forall k :: k in rows ==> rows[k] <= rows[top];
      m := rows[top];
    }

    /** A navigation item's `add`: after the largest position, or at 1 in an empty list. */
    method Append(key: Key) returns (ok: bool)
      requires Valid()
      modifies this
      ensures ok <==> key !in old(rows)
      ensures Valid() && items == if ok then old(items) + [key] else old(items)
      ensures if ok then Writes(old(rows), old(items), Op.Append(key), rows) else rows == old(rows)
    {
      if key in rows {
        return false;
      }
      var m := MaxPosition();
      WritesRefineTheList(rows, items, Op.Append(key), rows[key := m + 1]);
      rows, items := rows[key := m + 1], items + [key];
      ok := true;
    }

    method Remove(key: Key)
      requires Valid()
      modifies this
      ensures Valid() && items == Others(old(items), key)
      ensures Writes(old(rows), old(items), Op.Remove(key), rows)
    {
      WritesRefineTheList(rows, items, Op.Remove(key), rows - {key});
      rows, items := rows - {key}, Others(items, key);
    }

    method MoveAbove(key: Key, above: Option<Key>)
      requires Valid()
      modifies this
      ensures Valid() && items == Listed(old(items), Move(key, above))
      ensures Writes(old(rows), old(items), Move(key, above), rows)
    {
      var all := All();
      var ordered := Reorder(all, key, above);
      if ordered.Some? {
        MovedMembers(rows, items, key, above);
        var written := Renumber(rows, ordered.value);
        MoveShows(rows, items, ordered.value, written);
        rows, items := written, ordered.value;
      }
    }
  }

  lemma MovedMembers(rows: Rows, items: seq<Key>, key: Key, above: Option<Key>)
    requires Shows(rows, items) && Moved(items, key, above).Some?
    ensures var moved := Moved(items, key, above).value;
            Distinct(moved) && multiset(moved) == multiset(items) && forall k :: k in moved <==> k in rows
  {
    ShowsDistinct(rows, items);
    MoveIsWhatItSays(items, key, above);
    SameMembers(items, Moved(items, key, above).value);
  }

  /** Each row's position rewritten, one at a time. */
  method Renumber(rows: Rows, ordered: seq<Key>) returns (written: Rows)
    requires Distinct(ordered) && forall k :: k in ordered <==> k in rows
    ensures written.Keys == rows.Keys && Dense(written, ordered)
  {
    written := rows;
    for pos := 0 to |ordered|
      invariant written.Keys == rows.Keys
      invariant forall i :: 0 <= i < pos ==> ordered[i] in written && written[ordered[i]] == i
    {
      written := written[ordered[pos] := pos];
    }
  }

  method LeastOf(rows: Rows, left: set<Key>, ghost least: Key) returns (k: Key)
    requires left <= rows.Keys
    requires least in left && forall o :: o in left && o != least ==> rows[least] < rows[o]
    ensures k == least
  {
    k :| k in left && forall o :: o in left ==> rows[k] <= rows[o];
  }

  lemma TailIsLeft(rows: Rows, items: seq<Key>, n: nat)
    requires Shows(rows, items) && n < |items|
    ensures var left := rows.Keys - (set k | k in items[..n]);
            items[n] in left && forall o :: o in left && o != items[n] ==> rows[items[n]] < rows[o]
  {
    assert items[n] in items;
    assert forall i :: 0 <= i < n ==> items[i] in items[..n] && items[i] != items[n];
    var left := rows.Keys - (set k | k in items[..n]);
    forall o | o in left && o != items[n] ensures rows[items[n]] < rows[o] {
      var i :| 0 <= i < |items| && items[i] == o;
    }
  }

  lemma TopExists(rows: Rows, items: seq<Key>)
    requires Shows(rows, items) && rows != map[]
    ensures exists top :: top in rows && forall k :: k in rows ==> rows[k] <= rows[top]
  {
    var some :| some in rows;
    assert some in items;
    var top := items[|items| - 1];
    assert top in rows;
    forall k | k in rows ensures rows[k] <= rows[top] {
      var i :| 0 <= i < |items| && items[i] == k;
    }
  }

  lemma {:induction false} FirstIndex(items: seq<Key>, key: Key, at: nat)
    requires at < |items| && items[at] == key && forall j :: 0 <= j < at ==> items[j] != key
    ensures IndexOf(items, key) == at
  {
    if at > 0 {
      FirstIndex(items[1..], key, at - 1);
    }
  }

  /** `_reorder`: take the row out, find its target among the rest, insert. */
  method Reorder(items: seq<Key>, key: Key, above: Option<Key>) returns (ordered: Option<seq<Key>>)
    requires Distinct(items)
    ensures ordered == Moved(items, key, above)
  {
    if key !in items {
      return None;
    }
    var others: seq<Key> := [];
    for n := 0 to |items|
      invariant others == Others(items[..n], key)
    {
      assert items[..n + 1][..n] == items[..n];
      if items[n] != key {
        others := others + [items[n]];
      }
    }
    assert items[..|items|] == items;
    if above == None {
      return Some(others + [key]);
    }
    var at := 0;
    while at < |others| && others[at] != above.value
      invariant at <= |others| && forall j :: 0 <= j < at ==> others[j] != above.value
    {
      at := at + 1;
    }
    if at == |others| {
      return None;
    }
    FirstIndex(others, above.value, at);
    ordered := Some(others[..at] + [key] + others[at..]);
  }
}
