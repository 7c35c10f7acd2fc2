/** The last-admin guard under concurrency: actors that lock, list the accounts page by page, check, mutate
    and release, while enables, promotions, sign-ups and purges of the account server go unlocked. */
module AdminRaces {
  import opened Admins

  datatype Phase =
    | Listing(op: Operation, target: User, read: nat, seen: seq<Status>)
    | Counted(op: Operation, target: User, seen: seq<Status>)
    | Cleared(op: Operation, target: User, seen: seq<Status>)
    | Finished

  /** `users` is the order the account server pages through. */
  datatype State = State(users: seq<User>, directory: Directory, holder: set<nat>, actors: map<nat, Phase>)

  /** A sign-up lands anywhere in the server's order. An expunge is the server's own, and takes no admin
      who can act: the application only ever marks an account deleted. */
  datatype Act =
    | Lock(i: nat, op: Operation, target: User)
    | ReadPage(i: nat)
    | Check(i: nat)
    | Mutate(i: nat)
    | Release(i: nat)
    | LoseLock(i: nat)
    | Enable(user: User)
    | Promote(user: User)
    | SignUp(user: User, email: string, at: nat)
    | Expunge(at: nat)

  /** What the guard relies on: no account appears ahead of where a listing has got to, none disappears
      from there, and the lock outlives the mutation. */
  datatype Trust = Trust(signUpsWait: bool, expungesWait: bool, lockOutlives: bool)

  const FULL := Trust(true, true, true)

  /** A change of the list at this place moves accounts across a page boundary some listing has passed. */
  predicate Shifts(s: State, at: nat) {
    exists i :: i in s.actors && s.actors[i].Listing? && at < s.actors[i].read * PAGE_SIZE
  }

  ghost predicate Roster(users: seq<User>, directory: Directory) {
    && (forall user :: user in users <==> user in directory)
    && (forall i, j :: 0 <= i < j < |users| ==> users[i] != users[j])
  }

  ghost predicate Enabled(s: State, trust: Trust, a: Act) {
    match a
    case Lock(i, _, _) => s.holder == {} && i !in s.actors
    case ReadPage(i) => i in s.actors && s.actors[i].Listing?
    case Check(i) => i in s.actors && s.actors[i].Counted?
    case Mutate(i) => i in s.actors && s.actors[i].Cleared?
    case Release(i) => i in s.actors && s.actors[i].Finished?
    case LoseLock(i) => i in s.actors && (trust.lockOutlives ==> s.actors[i].Finished?)
    case Enable(user) => user in s.directory
    case Promote(user) => user in s.directory
    case SignUp(user, _, at) => user !in s.directory && at <= |s.users| && (trust.signUpsWait ==> !Shifts(s, at))
    case Expunge(at) => at < |s.users| && !Acts(s.directory, s.users[at]) && (trust.expungesWait ==> !Shifts(s, at))
  }

  function Inserted(users: seq<User>, at: nat, user: User): seq<User> {
    if at <= |users| then users[..at] + [user] + users[at..] else users
  }

  function Removed(users: seq<User>, at: nat): seq<User> {
    if at < |users| then users[..at] + users[at + 1..] else users
  }

  /** The page's live accounts; a page is empty past the end. */
  function Statuses(s: State, page: nat): seq<Status>
    requires page >= 1
  {
    var found := Page(s.users, page, PAGE_SIZE);
    if forall user :: user in found ==> user in s.directory then Live(found, s.directory) else []
  }

  /** The listing one page on: complete when the page was short. */
  function Turned(s: State, p: Phase): Phase
    requires p.Listing?
  {
    var seen := p.seen + Statuses(s, p.read + 1);
    if |Page(s.users, p.read + 1, PAGE_SIZE)| < PAGE_SIZE then Counted(p.op, p.target, seen)
    else Listing(p.op, p.target, p.read + 1, seen)
  }

  function Apply(s: State, a: Act): State {
    match a
    case Lock(i, op, target) => s.(holder := {i}, actors := s.actors[i := Listing(op, target, 0, [])])
    case ReadPage(i) =>
      if i !in s.actors || !s.actors[i].Listing? then s
      else
        s.(actors := s.actors[i := Turned(s, s.actors[i])])
    case Check(i) =>
      if i !in s.actors || !s.actors[i].Counted? then s
      else
        var p := s.actors[i];
        var verdict := if Refuses(p.op, p.target, p.seen) then Finished else Cleared(p.op, p.target, p.seen);
        s.(actors := s.actors[i := verdict])
    case Mutate(i) =>
      if i !in s.actors || !s.actors[i].Cleared? then s
      else
        var p := s.actors[i];
        s.(directory := Mutated(s.directory, p.op, p.target, p.seen), actors := s.actors[i := Finished])
    case Release(i) => s.(holder := s.holder - {i}, actors := s.actors - {i})
    case LoseLock(i) => s.(holder := s.holder - {i})
    case Enable(user) =>
      if user !in s.directory then s else s.(directory := s.directory[user := s.directory[user].(banned := false)])
    case Promote(user) =>
      if user !in s.directory then s else s.(directory := s.directory[user := s.directory[user].(admin := true)])
    case SignUp(user, email, at) =>
      s.(users := Inserted(s.users, at, user), directory := s.directory[user := Account(email, false, false, false)])
    case Expunge(at) =>
      if at >= |s.users| then s
      else s.(users := Removed(s.users, at), directory := s.directory - {s.users[at]})
  }

  ghost predicate IsRun(s: State, trust: Trust, acts: seq<Act>)
    decreases |acts|
  {
    acts == [] || (Enabled(s, trust, acts[0]) && IsRun(Apply(s, acts[0]), trust, acts[1..]))
  }

  function After(s: State, acts: seq<Act>): State
    decreases |acts|
  {
    if acts == [] then s else After(Apply(s, acts[0]), acts[1..])
  }

  function Init(users: seq<User>, directory: Directory): State { State(users, directory, {}, map[]) }

  // ── The invariant ─────────────────────────────────────────────────────────────────────────────

  /** Whoever was read as able to act still is, and a target read as unable left someone else. */
  ghost predicate SeenInv(directory: Directory, target: User, seen: seq<Status>) {
    && Distinct(seen)
    && (forall i :: 0 <= i < |seen| && CanAct(seen[i]) ==> Acts(directory, seen[i].user))
    && (Listed(seen, target) && !SeenActing(seen, target) ==> AnotherActs(directory, target))
  }

  /** A listing shows each of the first `upTo` accounts, but for the deleted, and no other. */
  ghost predicate Covers(users: seq<User>, directory: Directory, upTo: nat, seen: seq<Status>) {
    && upTo <= |users|
    && (forall k :: 0 <= k < |seen| ==> seen[k].user in users[..upTo])
    && (forall k :: 0 <= k < upTo ==> ShownOrDeleted(directory, users[k], seen))
  }

  predicate ShownOrDeleted(directory: Directory, user: User, seen: seq<Status>) {
    user in directory && (Listed(seen, user) || directory[user].deleted)
  }

  /** A cleared removal leaves someone else, and so does a listing that did not show its target able to act. */
  ghost predicate PhaseInv(users: seq<User>, directory: Directory, p: Phase) {
    match p
    case Listing(_, target, read, seen) =>
      && SeenInv(directory, target, seen)
      && (if read == 0 then seen == [] else Covers(users, directory, read * PAGE_SIZE, seen))
    case Counted(_, target, seen) =>
      SeenInv(directory, target, seen) && (!SeenActing(seen, target) ==> AnotherActs(directory, target))
    case Cleared(op, target, _) => Removes(op) ==> AnotherActs(directory, target)
    case Finished => true
  }

  ghost predicate Inv(s: State) {
    && Roster(s.users, s.directory)
    && SomeoneActs(s.directory)
    && (forall i :: i in s.actors && !s.actors[i].Finished? ==> s.holder == {i})
    && (forall i :: i in s.actors ==> PhaseInv(s.users, s.directory, s.actors[i]))
  }

  // ── Reading a page ────────────────────────────────────────────────────────────────────────────

  lemma ReadKeepsSeen(directory: Directory, target: User, seen: seq<Status>, user: User)
    requires SomeoneActs(directory) && SeenInv(directory, target, seen)
    requires user in directory && !directory[user].deleted && !Listed(seen, user)
    ensures SeenInv(directory, target, seen + [StatusOf(directory, user)])
  {
    var status := StatusOf(directory, user);
    var more := seen + [status];
    assert forall i :: 0 <= i < |seen| ==> more[i] == seen[i];
    assert more[|seen|] == status;
    forall i | 0 <= i < |seen| ensures seen[i].user != user {
      assert seen[i].user == user ==> Listed(seen, user);
    }
    if Listed(more, target) && !SeenActing(more, target) {
      if user == target {
        assert !CanAct(more[|seen|]);
        var other :| Acts(directory, other);
        assert other != target;
      } else {
        assert Listed(seen, target);
        assert forall i :: 0 <= i < |seen| && seen[i].user == target && CanAct(seen[i]) ==> more[i].user == target;
      }
    }
  }

  lemma ListedMore(seen: seq<Status>, more: seq<Status>, user: User)
    ensures Listed(seen + more, user) <==> Listed(seen, user) || Listed(more, user)
  {
    var all := seen + more;
    if Listed(seen, user) {
      var i :| 0 <= i < |seen| && seen[i].user == user;
      assert all[i].user == user;
    }
    if Listed(more, user) {
      var i :| 0 <= i < |more| && more[i].user == user;
      assert all[|seen| + i].user == user;
    }
    if Listed(all, user) {
      var i :| 0 <= i < |all| && all[i].user == user;
      assert if i < |seen| then seen[i].user == user else more[i - |seen|].user == user;
    }
  }

  lemma {:induction false} PageKeepsSeen(directory: Directory, target: User, seen: seq<Status>, page: seq<User>)
    requires SomeoneActs(directory) && SeenInv(directory, target, seen)
    requires forall user :: user in page ==> user in directory && !Listed(seen, user)
    requires forall i, j :: 0 <= i < j < |page| ==> page[i] != page[j]
    ensures SeenInv(directory, target, seen + Live(page, directory))
  {
    if page == [] {
      assert seen + [] == seen;
    } else {
      var init, last := page[..|page| - 1], page[|page| - 1];
      PageKeepsSeen(directory, target, seen, init);
      if !directory[last].deleted {
        LiveListsEachOnce(init, directory);
        ListedMore(seen, Live(init, directory), last);
        ReadKeepsSeen(directory, target, seen + Live(init, directory), last);
        assert seen + Live(page, directory) == seen + Live(init, directory) + [StatusOf(directory, last)];
      }
    }
  }

  lemma PageFound(s: State, read: nat)
    requires Roster(s.users, s.directory) && read * PAGE_SIZE <= |s.users|
    ensures var found, start := Page(s.users, read + 1, PAGE_SIZE), read * PAGE_SIZE;
            && start + |found| <= |s.users| && found == s.users[start..start + |found|]
            && |found| <= PAGE_SIZE && (|found| < PAGE_SIZE ==> start + |found| == |s.users|)
            && (forall user :: user in found ==> user in s.directory)
            && Statuses(s, read + 1) == Live(found, s.directory)
  {
    PageAt(s.users, read + 1, PAGE_SIZE, read * PAGE_SIZE);
  }

  lemma FreshAccounts(users: seq<User>, directory: Directory, start: nat, n: nat, seen: seq<Status>)
    requires Roster(users, directory) && Covers(users, directory, start, seen) && start + n <= |users|
    ensures forall user :: user in users[start..start + n] ==> !Listed(seen, user)
  {
    var found := users[start..start + n];
    forall user | user in found ensures !Listed(seen, user) {
      var k :| 0 <= k < |found| && found[k] == user;
      assert user == users[start + k];
      assert user !in users[..start];
    }
  }

  /** Pages read off a list that stays put show each live account of it once. */
  lemma CoversMore(users: seq<User>, directory: Directory, start: nat, n: nat, seen: seq<Status>)
    requires Roster(users, directory) && Covers(users, directory, start, seen) && start + n <= |users|
    ensures forall user :: user in users[start..start + n] ==> user in directory
    ensures Covers(users, directory, start + n, seen + Live(users[start..start + n], directory))
  {
    var found := users[start..start + n];
    assert forall user :: user in found ==> user in users;
    LiveListsEachOnce(found, directory);
    var live := Live(found, directory);
    var upTo := users[..start + n];
    assert upTo == users[..start] + found;
    forall k | 0 <= k < |seen + live| ensures (seen + live)[k].user in upTo {
      if k >= |seen| {
        assert live[k - |seen|].user in found;
      }
    }
    forall k | 0 <= k < start + n ensures ShownOrDeleted(directory, users[k], seen + live) {
      ListedMore(seen, live, users[k]);
      if k < start {
        assert ShownOrDeleted(directory, users[k], seen);
      } else {
        assert found[k - start] == users[k] && users[k] in found;
      }
    }
  }

  lemma PageAddsSeen(s: State, target: User, read: nat, seen: seq<Status>)
    requires Roster(s.users, s.directory) && SomeoneActs(s.directory)
    requires SeenInv(s.directory, target, seen) && Covers(s.users, s.directory, read * PAGE_SIZE, seen)
    ensures SeenInv(s.directory, target, seen + Statuses(s, read + 1))
  {
    PageFound(s, read);
    var found := Page(s.users, read + 1, PAGE_SIZE);
    FreshAccounts(s.users, s.directory, read * PAGE_SIZE, |found|, seen);
    PageKeepsSeen(s.directory, target, seen, found);
  }

  lemma PageAddsCovers(s: State, read: nat, seen: seq<Status>)
    requires Roster(s.users, s.directory) && Covers(s.users, s.directory, read * PAGE_SIZE, seen)
    ensures var found := Page(s.users, read + 1, PAGE_SIZE);
            Covers(s.users, s.directory, if |found| < PAGE_SIZE then |s.users| else (read + 1) * PAGE_SIZE,
                   seen + Statuses(s, read + 1))
  {
    PageFound(s, read);
    CoversMore(s.users, s.directory, read * PAGE_SIZE, |Page(s.users, read + 1, PAGE_SIZE)|, seen);
  }

  lemma NothingReadYet(users: seq<User>, directory: Directory)
    ensures Covers(users, directory, 0, [])
  {
  }

  lemma PhaseCovers(s: State, p: Phase)
    requires p.Listing? && PhaseInv(s.users, s.directory, p)
    ensures SeenInv(s.directory, p.target, p.seen)
    ensures Covers(s.users, s.directory, p.read * PAGE_SIZE, p.seen)
  {
    if p.read == 0 {
      NothingReadYet(s.users, s.directory);
    }
  }

  lemma PageKeepsPhase(
    s: State, op: Operation, target: User, read: nat, seen: seq<Status>, more: seq<Status>, found: nat)
    requires Roster(s.users, s.directory) && SomeoneActs(s.directory)
    requires SeenInv(s.directory, target, more)
    requires Covers(s.users, s.directory, if found < PAGE_SIZE then |s.users| else (read + 1) * PAGE_SIZE, more)
    requires Turned(s, Listing(op, target, read, seen))
          == if found < PAGE_SIZE then Counted(op, target, more) else Listing(op, target, read + 1, more)
    ensures PhaseInv(s.users, s.directory, Turned(s, Listing(op, target, read, seen)))
  {
    if found < PAGE_SIZE {
      CountedHolds(s, op, target, more);
    } else {
      ListingHolds(s, op, target, read + 1, more);
    }
  }

  lemma CountedHolds(s: State, op: Operation, target: User, seen: seq<Status>)
    requires Roster(s.users, s.directory) && SomeoneActs(s.directory)
    requires SeenInv(s.directory, target, seen) && Covers(s.users, s.directory, |s.users|, seen)
    ensures PhaseInv(s.users, s.directory, Counted(op, target, seen))
  {
    CompleteListing(s, target, seen);
  }

  lemma ListingHolds(s: State, op: Operation, target: User, read: nat, seen: seq<Status>)
    requires read > 0 && SeenInv(s.directory, target, seen) && Covers(s.users, s.directory, read * PAGE_SIZE, seen)
    ensures PhaseInv(s.users, s.directory, Listing(op, target, read, seen))
  {
  }

  lemma PageKeepsListing(s: State, op: Operation, target: User, read: nat, seen: seq<Status>)
    requires Roster(s.users, s.directory) && SomeoneActs(s.directory)
    requires SeenInv(s.directory, target, seen) && Covers(s.users, s.directory, read * PAGE_SIZE, seen)
    ensures PhaseInv(s.users, s.directory, Turned(s, Listing(op, target, read, seen)))
  {
    PageAddsSeen(s, target, read, seen);
    PageAddsCovers(s, read, seen);
    var found := |Page(s.users, read + 1, PAGE_SIZE)|;
    PageKeepsPhase(s, op, target, read, seen, seen + Statuses(s, read + 1), found);
  }

  lemma ReadPageKeepsPhase(s: State, i: nat)
    requires Inv(s) && Enabled(s, FULL, ReadPage(i))
    ensures PhaseInv(s.users, s.directory, Apply(s, ReadPage(i)).actors[i])
  {
    var p := s.actors[i];
    assert PhaseInv(s.users, s.directory, p);
    PhaseCovers(s, p);
    PageKeepsListing(s, p.op, p.target, p.read, p.seen);
  }

  /** A listing that has read every page and not the target acting has someone else to show. */
  lemma CompleteListing(s: State, target: User, seen: seq<Status>)
    requires Roster(s.users, s.directory) && SomeoneActs(s.directory) && SeenInv(s.directory, target, seen)
    requires Covers(s.users, s.directory, |s.users|, seen)
    ensures !SeenActing(seen, target) ==> AnotherActs(s.directory, target)
  {
    if !SeenActing(seen, target) && !Listed(seen, target) {
      var other :| Acts(s.directory, other);
      assert other in s.users;
      var k :| 0 <= k < |s.users| && s.users[k] == other;
      assert ShownOrDeleted(s.directory, s.users[k], seen);
    }
  }

  // ── The other steps ───────────────────────────────────────────────────────────────────────────

  /** Nothing under the lock takes an admin away but the mutation. */
  ghost predicate OnlyAdds(before: Directory, after: Directory) {
    forall user :: Acts(before, user) ==> Acts(after, user)
  }

  lemma AnotherStays(before: Directory, after: Directory, target: User)
    requires OnlyAdds(before, after)
    ensures AnotherActs(before, target) ==> AnotherActs(after, target)
    ensures SomeoneActs(before) ==> SomeoneActs(after)
  {
    if AnotherActs(before, target) {
      var user :| user != target && Acts(before, user);
      assert Acts(after, user);
    }
    if SomeoneActs(before) {
      var user :| Acts(before, user);
      assert Acts(after, user);
    }
  }

  /** The first accounts of the list, and whether they are deleted, are as they were. */
  ghost predicate KeepsFirst(s: State, after: State, start: nat) {
    && (start <= |s.users| ==> start <= |after.users| && after.users[..start] == s.users[..start])
    && (forall k :: 0 <= k < start && k < |s.users| && s.users[k] in s.directory ==>
          s.users[k] in after.directory && after.directory[s.users[k]].deleted == s.directory[s.users[k]].deleted)
  }

  lemma CoversKept(s: State, after: State, start: nat, seen: seq<Status>)
    requires Covers(s.users, s.directory, start, seen) && KeepsFirst(s, after, start)
    ensures Covers(after.users, after.directory, start, seen)
  {
    forall k | 0 <= k < start ensures ShownOrDeleted(after.directory, after.users[k], seen) {
      assert after.users[k] == after.users[..start][k] == s.users[..start][k] == s.users[k];
      assert ShownOrDeleted(s.directory, s.users[k], seen);
    }
  }

  lemma AddingKeepsPhase(s: State, after: State, p: Phase)
    requires OnlyAdds(s.directory, after.directory) && PhaseInv(s.users, s.directory, p)
    requires p.Listing? ==> KeepsFirst(s, after, p.read * PAGE_SIZE)
    ensures PhaseInv(after.users, after.directory, p)
  {
    if !p.Finished? {
      AnotherStays(s.directory, after.directory, p.target);
      if p.Listing? && p.read > 0 {
        CoversKept(s, after, p.read * PAGE_SIZE, p.seen);
      }
    }
  }

  lemma AddingKeepsInv(s: State, after: State)
    requires Inv(s) && OnlyAdds(s.directory, after.directory) && Roster(after.users, after.directory)
    requires after.actors == s.actors && after.holder == s.holder
    requires forall i :: i in s.actors && s.actors[i].Listing? ==> KeepsFirst(s, after, s.actors[i].read * PAGE_SIZE)
    ensures Inv(after)
  {
    AnotherStays(s.directory, after.directory, 0);
    forall i | i in after.actors ensures PhaseInv(after.users, after.directory, after.actors[i]) {
      AddingKeepsPhase(s, after, s.actors[i]);
    }
  }

  lemma SignUpKeepsFirst(s: State, user: User, email: string, at: nat, start: nat)
    requires start <= at <= |s.users| && user !in s.directory
    ensures KeepsFirst(s, Apply(s, SignUp(user, email, at)), start)
  {
  }

  lemma ExpungeKeepsFirst(s: State, at: nat, start: nat)
    requires Roster(s.users, s.directory) && start <= at < |s.users|
    ensures KeepsFirst(s, Apply(s, Expunge(at)), start)
  {
  }

  lemma InsertedIsDistinct(users: seq<User>, at: nat, user: User)
    requires at <= |users| && user !in users && forall i, j :: 0 <= i < j < |users| ==> users[i] != users[j]
    ensures var after := Inserted(users, at, user); forall i, j :: 0 <= i < j < |after| ==> after[i] != after[j]
  {
    var after := Inserted(users, at, user);
    forall i | 0 <= i < |after| && i != at
      ensures after[i] == users[if i < at then i else i - 1] && after[i] != user
    {
      assert after[i] in users;
    }
  }

  lemma SignUpKeepsRoster(s: State, user: User, email: string, at: nat)
    requires Roster(s.users, s.directory) && user !in s.directory && at <= |s.users|
    ensures var after := Apply(s, SignUp(user, email, at)); Roster(after.users, after.directory)
  {
    var after := Apply(s, SignUp(user, email, at));
    assert after.users[at] == user;
    forall u ensures u in after.users <==> u in s.users || u == user {
      if u in s.users {
        var k :| 0 <= k < |s.users| && s.users[k] == u;
        assert after.users[if k < at then k else k + 1] == u;
      }
    }
    InsertedIsDistinct(s.users, at, user);
  }

  lemma ExpungeKeepsRoster(s: State, at: nat)
    requires Roster(s.users, s.directory) && at < |s.users|
    ensures var after := Apply(s, Expunge(at)); Roster(after.users, after.directory)
  {
    var after := Apply(s, Expunge(at));
    assert forall k :: 0 <= k < |after.users| ==> after.users[k] == s.users[if k < at then k else k + 1];
    forall u ensures u in after.users <==> u in s.users && u != s.users[at] {
      if u in s.users && u != s.users[at] {
        var k :| 0 <= k < |s.users| && s.users[k] == u;
        assert after.users[if k < at then k else k - 1] == u;
      }
      if u in after.users {
        var k :| 0 <= k < |after.users| && after.users[k] == u;
        assert u == s.users[if k < at then k else k + 1];
      }
    }
  }

  /** The heart of the guard: a check that passes on a complete listing leaves another admin. */
  lemma PassingLeavesAnother(directory: Directory, op: Operation, target: User, seen: seq<Status>)
    requires SeenInv(directory, target, seen) && (!SeenActing(seen, target) ==> AnotherActs(directory, target))
    requires Removes(op) && !Refuses(op, target, seen)
    ensures AnotherActs(directory, target)
  {
    if SeenActing(seen, target) {
      if forall i :: 0 <= i < |seen| && CanAct(seen[i]) ==> seen[i].user == target {
        OnlyTargetActs(seen, target);
      } else {
        var i :| 0 <= i < |seen| && CanAct(seen[i]) && seen[i].user != target;
        assert Acts(directory, seen[i].user);
      }
    }
  }

  lemma OthersAreFinished(s: State, i: nat, j: nat)
    requires Inv(s) && i in s.actors && !s.actors[i].Finished? && j in s.actors && j != i
    ensures s.actors[j].Finished?
  {
    assert s.holder == {i};
    assert i in s.holder;
    assert !s.actors[j].Finished? ==> s.holder == {j};
  }

  lemma ActorStepKeepsInv(s: State, a: Act)
    requires Inv(s) && Enabled(s, FULL, a) && (a.ReadPage? || a.Check? || a.Mutate?)
    ensures Inv(Apply(s, a))
  {
    var after, p := Apply(s, a), s.actors[a.i];
    assert PhaseInv(s.users, s.directory, p);
    forall j | j in s.actors && j != a.i ensures s.actors[j].Finished? {
      OthersAreFinished(s, a.i, j);
    }
    match a
    case ReadPage(i) => ReadPageKeepsPhase(s, i);
    case Check(i) =>
      if !Refuses(p.op, p.target, p.seen) && Removes(p.op) {
        PassingLeavesAnother(s.directory, p.op, p.target, p.seen);
      }
    case Mutate(i) => MutateKeepsSomeone(s.directory, p.op, p.target, p.seen);
  }

  lemma LockStepKeepsInv(s: State, a: Act)
    requires Inv(s) && Enabled(s, FULL, a) && (a.Lock? || a.Release? || a.LoseLock?)
    ensures Inv(Apply(s, a))
  {
    var after := Apply(s, a);
    forall j | j in after.actors ensures PhaseInv(after.users, after.directory, after.actors[j]) {
      assert j in s.actors && !(a.Lock? && a.i == j) ==> PhaseInv(s.users, s.directory, s.actors[j]);
    }
    if a.Lock? {
      assert forall j :: j in s.actors && !s.actors[j].Finished? ==> j in s.holder;
    } else {
      assert forall j :: j in after.actors && !after.actors[j].Finished? ==> s.holder == {j};
    }
  }

  lemma ApplyKeepsInv(s: State, a: Act)
    requires Inv(s) && Enabled(s, FULL, a)
    ensures Inv(Apply(s, a))
  {
    match a
    case Lock(_, _, _) => LockStepKeepsInv(s, a);
    case ReadPage(_) => ActorStepKeepsInv(s, a);
    case Check(_) => ActorStepKeepsInv(s, a);
    case Mutate(_) => ActorStepKeepsInv(s, a);
    case Release(_) => LockStepKeepsInv(s, a);
    case LoseLock(_) => LockStepKeepsInv(s, a);
    case Enable(_) => AddingKeepsInv(s, Apply(s, a));
    case Promote(_) => AddingKeepsInv(s, Apply(s, a));
    case SignUp(user, email, at) =>
      SignUpKeepsRoster(s, user, email, at);
      forall i | i in s.actors && s.actors[i].Listing?
        ensures KeepsFirst(s, Apply(s, a), s.actors[i].read * PAGE_SIZE)
      {
        SignUpKeepsFirst(s, user, email, at, s.actors[i].read * PAGE_SIZE);
      }
      AddingKeepsInv(s, Apply(s, a));
    case Expunge(at) =>
      ExpungeKeepsRoster(s, at);
      forall i | i in s.actors && s.actors[i].Listing?
        ensures KeepsFirst(s, Apply(s, a), s.actors[i].read * PAGE_SIZE)
      {
        ExpungeKeepsFirst(s, at, s.actors[i].read * PAGE_SIZE);
      }
      AddingKeepsInv(s, Apply(s, a));
  }

  lemma {:induction false} RunKeepsInv(s: State, acts: seq<Act>)
    requires Inv(s) && IsRun(s, FULL, acts)
    ensures Inv(After(s, acts))
    decreases |acts|
  {
    if acts != [] {
      ApplyKeepsInv(s, acts[0]);
      RunKeepsInv(Apply(s, acts[0]), acts[1..]);
    }
  }

  /** For any number of actors in any interleaving, once one admin can act, one always can. */
  lemma LastAdminSurvives(users: seq<User>, directory: Directory, acts: seq<Act>)
    requires Roster(users, directory) && SomeoneActs(directory) && IsRun(Init(users, directory), FULL, acts)
    ensures SomeoneActs(After(Init(users, directory), acts).directory)
  {
    RunKeepsInv(Init(users, directory), acts);
  }

  // ── When a change of the list spoils a listing ────────────────────────────────────────────────

  /** After the first `start` accounts were read, an account put into the list makes the rest show one of
      them again exactly when it lands ahead of where the listing has got to. */
  lemma InsertRepeatsIff(users: seq<User>, start: nat, at: nat, user: User)
    requires start <= |users| && at <= |users| && user !in users
    requires forall i, j :: 0 <= i < j < |users| ==> users[i] != users[j]
    ensures at < start <==> exists u :: u in users[..start] && u in Inserted(users, at, user)[start..]
  {
    var after := Inserted(users, at, user);
    if at < start {
      assert users[start - 1] in users[..start];
      assert after[start..][0] == users[start - 1];
    } else {
      InsertedIsDistinct(users, at, user);
      var rest := after[start..];
      assert forall i :: 0 <= i < start ==> after[i] == users[i];
      forall j | 0 <= j < |rest| ensures rest[j] !in users[..start] {
        assert rest[j] == after[start + j];
      }
    }
  }

  /** And an account taken out makes the rest miss another exactly when it was ahead and a rest remains. */
  lemma RemoveMissesIff(users: seq<User>, start: nat, at: nat)
    requires start <= |users| && at < |users|
    requires forall i, j :: 0 <= i < j < |users| ==> users[i] != users[j]
    ensures at < start < |users| <==>
      exists u :: u in users[start..] && u != users[at] && (start < |users| ==> u !in Removed(users, at)[start..])
  {
    var after := Removed(users, at);
    if at < start < |users| {
      var u, rest := users[start], after[start..];
      assert users[start..][0] == u;
      forall j | 0 <= j < |rest| ensures rest[j] != u {
        assert rest[j] == users[start + j + 1];
      }
      assert u in users[start..] && u != users[at] && u !in rest;
    } else if start < |users| {
      var rest, ahead := after[start..], users[start..];
      forall u | u in ahead && u != users[at] ensures u in rest {
        var j :| 0 <= j < |ahead| && ahead[j] == u;
        assert rest[if start + j < at then j else j - 1] == u;
      }
    }
  }

  // ── Each assumption is needed ─────────────────────────────────────────────────────────────────

  lemma RunCons(s: State, trust: Trust, a: Act, rest: seq<Act>)
    requires Enabled(s, trust, a) && IsRun(Apply(s, a), trust, rest)
    ensures IsRun(s, trust, [a] + rest) && After(s, [a] + rest) == After(Apply(s, a), rest)
  {
    assert ([a] + rest)[1..] == rest;
  }

  /** Accounts `0..n` in falling order, so that account 0, the only admin, comes last. */
  function Falling(n: nat): seq<User> { seq(n, i requires 0 <= i < n => n - 1 - i) }

  function Accounts(n: nat): Directory { map user | user in Falling(n) :: Account("", user == 0, false, false) }

  lemma FallingRoster(n: nat)
    requires n > 0
    ensures Roster(Falling(n), Accounts(n)) && SomeoneActs(Accounts(n)) && Acts(Accounts(n), 0)
    ensures forall user :: Acts(Accounts(n), user) ==> user == 0
  {
    forall user ensures user in Falling(n) <==> user in Accounts(n) {
      if user in Accounts(n) {
        assert Falling(n)[n - 1 - user] == user;
      }
    }
    assert Falling(n)[n - 1] == 0;
    assert Acts(Accounts(n), 0);
  }

  /** The removal of account 0 that a checked listing lets through. */
  lemma CheckedRemovalRuns(s: State, trust: Trust, seen: seq<Status>)
    requires 0 in s.actors && s.actors[0] == Counted(Disable, 0, seen) && !Refuses(Disable, 0, seen)
    requires forall user :: Acts(s.directory, user) ==> user == 0
    ensures IsRun(s, trust, [Check(0)] + [Mutate(0)]) && !SomeoneActs(After(s, [Check(0)] + [Mutate(0)]).directory)
  {
    var s1 := Apply(s, Check(0));
    var s2 := Apply(s1, Mutate(0));
    assert forall user :: Acts(s2.directory, user) ==> Acts(s.directory, user) && user != 0;
    RunCons(s1, trust, Mutate(0), []);
    assert [Mutate(0)] + [] == [Mutate(0)];
    RunCons(s, trust, Check(0), [Mutate(0)]);
  }

  /** Lock, a page, a shift of the list, the next page, check and mutate. */
  lemma ShiftedRemovalRuns(s0: State, trust: Trust, s2: State, shift: Act, seen: seq<Status>) returns (acts: seq<Act>)
    requires s0.holder == {} && s0.actors == map[] && (shift.SignUp? || shift.Expunge?)
    requires s2 == Apply(Apply(s0, Lock(0, Disable, 0)), ReadPage(0))
    requires 0 in s2.actors && s2.actors[0].Listing? && Enabled(s2, trust, shift)
    requires Turned(Apply(s2, shift), s2.actors[0]) == Counted(Disable, 0, seen) && !Refuses(Disable, 0, seen)
    requires forall user :: Acts(Apply(s2, shift).directory, user) ==> user == 0
    ensures IsRun(s0, trust, acts) && !SomeoneActs(After(s0, acts).directory)
  {
    var s1 := Apply(s0, Lock(0, Disable, 0));
    var s3 := Apply(s2, shift);
    assert s3.actors == s2.actors;
    var s4 := Apply(s3, ReadPage(0));
    var last := [Check(0)] + [Mutate(0)];
    CheckedRemovalRuns(s4, trust, seen);
    RunCons(s3, trust, ReadPage(0), last);
    RunCons(s2, trust, shift, [ReadPage(0)] + last);
    RunCons(s1, trust, ReadPage(0), [shift] + ([ReadPage(0)] + last));
    RunCons(s0, trust, Lock(0, Disable, 0), [ReadPage(0)] + ([shift] + ([ReadPage(0)] + last)));
    acts := [Lock(0, Disable, 0)] + ([ReadPage(0)] + ([shift] + ([ReadPage(0)] + last)));
  }

  /** The state of the one actor after a first, full page. */
  lemma FirstPage(users: seq<User>, directory: Directory)
    requires Roster(users, directory) && |users| >= PAGE_SIZE
    ensures forall user :: user in users[..PAGE_SIZE] ==> user in directory
    ensures Apply(Apply(Init(users, directory), Lock(0, Disable, 0)), ReadPage(0))
         == State(users, directory, {0}, map[0 := Listing(Disable, 0, 1, Live(users[..PAGE_SIZE], directory))])
  {
    PageAt(users, 1, PAGE_SIZE, 0);
    var found := users[..PAGE_SIZE];
    assert Page(users, 1, PAGE_SIZE) == found;
    assert forall user :: user in found ==> user in users;
    assert [] + Live(found, directory) == Live(found, directory);
  }

  /** A sign-up between pages shows the last account of the first page again on the second: a listing of
      a full page of accounts counts its only admin twice, and lets that admin go. */
  lemma ListedTwiceDropsTheLast(trust: Trust) returns (acts: seq<Act>)
    requires !trust.signUpsWait
    ensures var users, directory := Falling(PAGE_SIZE), Accounts(PAGE_SIZE);
            && Roster(users, directory) && SomeoneActs(directory)
            && IsRun(Init(users, directory), trust, acts) && !SomeoneActs(After(Init(users, directory), acts).directory)
  {
    var users, directory := Falling(PAGE_SIZE), Accounts(PAGE_SIZE);
    FallingRoster(PAGE_SIZE);
    FirstPage(users, directory);
    assert users[..PAGE_SIZE] == users;
    var first := Live(users, directory);
    var s2 := State(users, directory, {0}, map[0 := Listing(Disable, 0, 1, first)]);
    var join := SignUp(PAGE_SIZE, "", 0);
    JoinShowsAgain(users, directory, first, s2);
    ShownTwice(users, directory, 0);
    acts := ShiftedRemovalRuns(Init(users, directory), trust, s2, join, first + [StatusOf(directory, 0)]);
  }

  /** After one sign-up ahead of a full page, the second page is the first page's last account alone. */
  lemma SecondPage(s: State, users: seq<User>, directory: Directory)
    requires users == Falling(PAGE_SIZE) && directory == Accounts(PAGE_SIZE)
    requires s.users == Inserted(users, 0, PAGE_SIZE)
    requires s.directory == directory[PAGE_SIZE := Account("", false, false, false)]
    ensures 0 in directory && Page(s.users, 2, PAGE_SIZE) == [0] && Statuses(s, 2) == [StatusOf(directory, 0)]
  {
    FallingRoster(PAGE_SIZE);
    PageAt(s.users, 2, PAGE_SIZE, PAGE_SIZE);
    assert s.users[PAGE_SIZE..] == [users[PAGE_SIZE - 1]] == [0];
    assert [0][..0] == [];
    assert Live([], s.directory) == [];
    assert Live([0], s.directory) == [StatusOf(s.directory, 0)];
  }

  lemma JoinShowsAgain(users: seq<User>, directory: Directory, first: seq<Status>, s: State)
    requires users == Falling(PAGE_SIZE) && directory == Accounts(PAGE_SIZE)
    requires s.users == users && s.directory == directory
    ensures 0 in directory
    ensures var after := Apply(s, SignUp(PAGE_SIZE, "", 0));
            && Turned(after, Listing(Disable, 0, 1, first)) == Counted(Disable, 0, first + [StatusOf(directory, 0)])
            && (forall user :: Acts(after.directory, user) ==> user == 0)
  {
    FallingRoster(PAGE_SIZE);
    SecondPage(Apply(s, SignUp(PAGE_SIZE, "", 0)), users, directory);
  }

  lemma ShownTwice(users: seq<User>, directory: Directory, user: User)
    requires Roster(users, directory) && Acts(directory, user)
    ensures var again := Live(users, directory) + [StatusOf(directory, user)];
            SeenActing(again, user) && CountActing(again) >= 2 && !Refuses(Disable, user, again)
  {
    LiveListsEachOnce(users, directory);
    var live := Live(users, directory);
    var again := live + [StatusOf(directory, user)];
    var i :| 0 <= i < |live| && live[i].user == user;
    assert again[i] == live[i] && CanAct(again[i]) && CanAct(again[|live|]);
    TwoActing(again, i, |live|);
  }

  /** An account gone between pages pulls the second page's first account onto the first, already read: a
      listing of one account more than a page misses its only admin, and lets that admin go. */
  lemma MissedTargetDropsTheLast(trust: Trust) returns (acts: seq<Act>)
    requires !trust.expungesWait
    ensures var users, directory := Falling(PAGE_SIZE + 1), Accounts(PAGE_SIZE + 1);
            && Roster(users, directory) && SomeoneActs(directory)
            && IsRun(Init(users, directory), trust, acts) && !SomeoneActs(After(Init(users, directory), acts).directory)
  {
    var users, directory := Falling(PAGE_SIZE + 1), Accounts(PAGE_SIZE + 1);
    FallingRoster(PAGE_SIZE + 1);
    FirstPage(users, directory);
    var seen := Live(users[..PAGE_SIZE], directory);
    var s2 := State(users, directory, {0}, map[0 := Listing(Disable, 0, 1, seen)]);
    EmptySecondPage(s2, seen);
    MissedIsUnseen(users, directory, seen);
    assert users[0] == PAGE_SIZE;
    acts := ShiftedRemovalRuns(Init(users, directory), trust, s2, Expunge(0), seen);
  }

  lemma EmptySecondPage(s: State, seen: seq<Status>)
    requires |s.users| == PAGE_SIZE + 1
    ensures var after := Apply(s, Expunge(0));
            Turned(after, Listing(Disable, 0, 1, seen)) == Counted(Disable, 0, seen)
  {
    var after := Apply(s, Expunge(0));
    PageAt(after.users, 2, PAGE_SIZE, PAGE_SIZE);
    assert Page(after.users, 2, PAGE_SIZE) == [];
    assert Live([], after.directory) == [] && seen + [] == seen;
  }

  lemma MissedIsUnseen(users: seq<User>, directory: Directory, seen: seq<Status>)
    requires users == Falling(PAGE_SIZE + 1) && Roster(users, directory)
    requires forall user :: user in users[..PAGE_SIZE] ==> user in directory
    requires seen == Live(users[..PAGE_SIZE], directory)
    ensures !Refuses(Disable, 0, seen)
  {
    var found := users[..PAGE_SIZE];
    LiveListsEachOnce(found, directory);
    assert forall i :: 0 <= i < |seen| ==> seen[i].user in found;
    assert 0 !in found;
  }

  const PAIR: Directory := map[1 := Account("a", true, false, false), 2 := Account("b", true, false, false)]
  const BOTH: seq<Status> := [Status(1, true, false), Status(2, true, false)]

  lemma PairIsListed()
    ensures Roster([1, 2], PAIR) && SomeoneActs(PAIR)
    ensures Page([1, 2], 1, PAGE_SIZE) == [1, 2] && Live([1, 2], PAIR) == BOTH
    ensures CountActing(BOTH) == 2
  {
    assert Acts(PAIR, 1);
    var users, first := [1, 2], [1];
    assert users[..|users| - 1] == first && first[..|first| - 1] == [];
    assert Live(first, PAIR) == [Status(1, true, false)];
    assert BOTH[..1] == [BOTH[0]] && [BOTH[0]][..0] == [];
    assert CountActing([BOTH[0]]) == 1;
  }

  /** Of two admins, one actor clears the removal of one and loses its lock before mutating. */
  lemma ClearThenLoseLock(s: State, trust: Trust, i: nat, target: User, rest: seq<Act>) returns (acts: seq<Act>)
    requires !trust.lockOutlives && s.users == [1, 2] && s.directory == PAIR && s.holder == {} && i !in s.actors
    requires IsRun(State([1, 2], PAIR, {}, s.actors[i := Cleared(Disable, target, BOTH)]), trust, rest)
    ensures IsRun(s, trust, acts)
    ensures After(s, acts) == After(State([1, 2], PAIR, {}, s.actors[i := Cleared(Disable, target, BOTH)]), rest)
  {
    PairIsListed();
    var s1 := Apply(s, Lock(i, Disable, target));
    var s2 := Apply(s1, ReadPage(i));
    assert [] + BOTH == BOTH;
    assert s2.actors == s.actors[i := Counted(Disable, target, BOTH)];
    var s3 := Apply(s2, Check(i));
    assert s3.actors == s.actors[i := Cleared(Disable, target, BOTH)];
    var s4 := Apply(s3, LoseLock(i));
    assert s4 == State([1, 2], PAIR, {}, s.actors[i := Cleared(Disable, target, BOTH)]);
    RunCons(s3, trust, LoseLock(i), rest);
    RunCons(s2, trust, Check(i), [LoseLock(i)] + rest);
    RunCons(s1, trust, ReadPage(i), [Check(i)] + ([LoseLock(i)] + rest));
    RunCons(s, trust, Lock(i, Disable, target), [ReadPage(i)] + ([Check(i)] + ([LoseLock(i)] + rest)));
    acts := [Lock(i, Disable, target)] + ([ReadPage(i)] + ([Check(i)] + ([LoseLock(i)] + rest)));
  }

  /** A lock that ends before the mutation lets two actors remove each other's remaining admin. */
  lemma LostLockDropsTheLast(trust: Trust) returns (acts: seq<Act>)
    requires !trust.lockOutlives
    ensures Roster([1, 2], PAIR) && SomeoneActs(PAIR)
    ensures IsRun(Init([1, 2], PAIR), trust, acts) && !SomeoneActs(After(Init([1, 2], PAIR), acts).directory)
  {
    PairIsListed();
    var cleared := State([1, 2], PAIR, {}, map[0 := Cleared(Disable, 1, BOTH), 1 := Cleared(Disable, 2, BOTH)]);
    var s1 := Apply(cleared, Mutate(0));
    var s2 := Apply(s1, Mutate(1));
    assert forall user :: !Acts(s2.directory, user);
    RunCons(s1, trust, Mutate(1), []);
    assert [Mutate(1)] + [] == [Mutate(1)];
    RunCons(cleared, trust, Mutate(0), [Mutate(1)]);
    var half := State([1, 2], PAIR, {}, map[0 := Cleared(Disable, 1, BOTH)]);
    assert half.actors[1 := Cleared(Disable, 2, BOTH)] == cleared.actors;
    var second := ClearThenLoseLock(half, trust, 1, 2, [Mutate(0)] + [Mutate(1)]);
    var none: map<nat, Phase> := map[];
    assert none[0 := Cleared(Disable, 1, BOTH)] == half.actors;
    acts := ClearThenLoseLock(Init([1, 2], PAIR), trust, 0, 1, second);
  }

  /** The guard's promise, exactly: on every server and every run an admin remains if and only if no sign-up
      and no expunge moves accounts across a page a listing has passed, and the lock outlives the mutation. */
  lemma LastAdminSurvivesIff(trust: Trust)
    ensures trust == FULL <==>
      forall users, directory, acts ::
        Roster(users, directory) && SomeoneActs(directory) && IsRun(Init(users, directory), trust, acts) ==>
          SomeoneActs(After(Init(users, directory), acts).directory)
  {
    if trust == FULL {
      forall users, directory, acts
        | Roster(users, directory) && SomeoneActs(directory) && IsRun(Init(users, directory), trust, acts)
        ensures SomeoneActs(After(Init(users, directory), acts).directory)
      {
        LastAdminSurvives(users, directory, acts);
      }
    } else if !trust.signUpsWait {
      var acts := ListedTwiceDropsTheLast(trust);
    } else if !trust.expungesWait {
      var acts := MissedTargetDropsTheLast(trust);
    } else {
      var acts := LostLockDropsTheLast(trust);
    }
  }
}
