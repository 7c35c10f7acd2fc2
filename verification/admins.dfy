/** The last-admin guard and the account server it reads, page by page. */
module Admins {
  import opened Strings

  type User = nat

  datatype Account = Account(email: string, admin: bool, banned: bool, deleted: bool)

  type Directory = map<User, Account>

  /** What listing an account reads of it. */
  datatype Status = Status(user: User, admin: bool, banned: bool)

  predicate CanAct(status: Status) { status.admin && !status.banned }

  predicate Acts(directory: Directory, user: User) {
    user in directory && directory[user].admin && !directory[user].banned && !directory[user].deleted
  }

  datatype Operation = Disable | Delete | Revoke | Grant

  predicate Removes(op: Operation) { op != Grant }

  /** `ensure_not_last_admin` raises. */
  predicate Violates(removesAdmin: bool, targetIsAdmin: bool, adminCount: nat) {
    removesAdmin && targetIsAdmin && adminCount <= 1
  }

  function CountActing(seen: seq<Status>): nat {
    if seen == [] then 0 else CountActing(seen[..|seen| - 1]) + if CanAct(seen[|seen| - 1]) then 1 else 0
  }

  predicate SeenActing(seen: seq<Status>, target: User) {
    exists i :: 0 <= i < |seen| && seen[i].user == target && CanAct(seen[i])
  }

  predicate Listed(seen: seq<Status>, user: User) { exists i :: 0 <= i < |seen| && seen[i].user == user }

  predicate Refuses(op: Operation, target: User, seen: seq<Status>) {
    Violates(Removes(op), SeenActing(seen, target), CountActing(seen))
  }

  /** What the guarded operation writes. A role is written only when the listing says it changes. */
  function Mutated(directory: Directory, op: Operation, target: User, seen: seq<Status>): Directory {
    if target !in directory then directory
    else
      var account := directory[target];
      match op
      case Disable => directory[target := account.(banned := true)]
      case Delete => directory[target := account.(deleted := true)]
      case Revoke => if SeenAdmin(seen, target) then directory[target := account.(admin := false)] else directory
      case Grant => if SeenAdmin(seen, target) then directory else directory[target := account.(admin := true)]
  }

  predicate SeenAdmin(seen: seq<Status>, target: User) {
    exists i :: 0 <= i < |seen| && seen[i].user == target && seen[i].admin
  }

  function StatusOf(directory: Directory, user: User): Status
    requires user in directory
  {
    Status(user, directory[user].admin, directory[user].banned)
  }

  ghost predicate SomeoneActs(directory: Directory) { exists user :: Acts(directory, user) }

  ghost predicate AnotherActs(directory: Directory, target: User) {
    exists user :: user != target && Acts(directory, user)
  }

  ghost predicate Distinct(seen: seq<Status>) {
    forall i, j :: 0 <= i < j < |seen| ==> seen[i].user != seen[j].user
  }

  /** Fewer than two of distinct statuses act when only the target's does. */
  lemma {:induction false} OnlyTargetActs(seen: seq<Status>, target: User)
    requires Distinct(seen)
    requires forall i :: 0 <= i < |seen| && CanAct(seen[i]) ==> seen[i].user == target
    ensures CountActing(seen) <= 1
    ensures !SeenActing(seen, target) ==> CountActing(seen) == 0
  {
    if seen != [] {
      var init, last := seen[..|seen| - 1], seen[|seen| - 1];
      OnlyTargetActs(init, target);
      if CanAct(last) {
        assert seen[|seen| - 1].user == target;
        assert forall i :: 0 <= i < |init| ==> init[i].user != target;
      }
      if SeenActing(init, target) {
        var i :| 0 <= i < |init| && init[i].user == target && CanAct(init[i]);
        assert seen[i] == init[i];
      }
    }
  }

  lemma MutateKeepsSomeone(directory: Directory, op: Operation, target: User, seen: seq<Status>)
    requires SomeoneActs(directory) && (Removes(op) ==> AnotherActs(directory, target))
    ensures SomeoneActs(Mutated(directory, op, target, seen))
  {
    var after := Mutated(directory, op, target, seen);
    if Removes(op) {
      var user :| user != target && Acts(directory, user);
      assert Acts(after, user);
    } else {
      var user :| Acts(directory, user);
      assert Acts(after, user);
    }
  }

  // ── The listing ───────────────────────────────────────────────────────────────────────────────

  /** One page of `list_users`, counted from 1. */
  function Page(users: seq<User>, page: nat, size: nat): seq<User>
    requires page >= 1 && size > 0
  {
    if (page - 1) * size >= |users| then []
    else if page * size >= |users| then users[(page - 1) * size..]
    else users[(page - 1) * size..page * size]
  }

  function Live(users: seq<User>, directory: Directory): seq<Status>
    requires forall user :: user in users ==> user in directory
  {
    if users == [] then []
    else
      var init, last := users[..|users| - 1], users[|users| - 1];
      if directory[last].deleted then Live(init, directory) else Live(init, directory) + [StatusOf(directory, last)]
  }

  lemma {:induction false} LiveListsEachOnce(users: seq<User>, directory: Directory)
    requires forall user :: user in users ==> user in directory
    requires forall i, j :: 0 <= i < j < |users| ==> users[i] != users[j]
    ensures Distinct(Live(users, directory))
    ensures forall i :: 0 <= i < |Live(users, directory)| ==>
      var status := Live(users, directory)[i];
      status.user in users && !directory[status.user].deleted && status == StatusOf(directory, status.user)
    ensures forall user :: user in users && !directory[user].deleted ==> Listed(Live(users, directory), user)
  {
    if users != [] {
      var init, last := users[..|users| - 1], users[|users| - 1];
      LiveListsEachOnce(init, directory);
      var before, live := Live(init, directory), Live(users, directory);
      assert forall i :: 0 <= i < |before| ==> live[i] == before[i];
      forall user | user in users && !directory[user].deleted ensures Listed(live, user) {
        if user in init {
          var i :| 0 <= i < |before| && before[i].user == user;
          assert live[i].user == user;
        } else {
          assert live[|before|].user == user;
        }
      }
    }
  }

  /** On a listing of every live account once, the guard refuses exactly the removal of the only admin
      who can act. */
  lemma RefusesExactlyTheLast(users: seq<User>, directory: Directory, op: Operation, target: User)
    requires forall user :: user in users <==> user in directory
    requires forall i, j :: 0 <= i < j < |users| ==> users[i] != users[j]
    ensures Refuses(op, target, Live(users, directory)) <==>
      Removes(op) && Acts(directory, target) && !AnotherActs(directory, target)
  {
    var seen := Live(users, directory);
    LiveListsEachOnce(users, directory);
    assert SeenActing(seen, target) <==> Acts(directory, target) by {
      if Acts(directory, target) {
        var i :| 0 <= i < |seen| && seen[i].user == target;
        assert CanAct(seen[i]);
      }
    }
    if Acts(directory, target) && AnotherActs(directory, target) {
      var other :| other != target && Acts(directory, other);
      var i :| 0 <= i < |seen| && seen[i].user == target;
      var j :| 0 <= j < |seen| && seen[j].user == other;
      TwoActing(seen, i, j);
    } else if Acts(directory, target) {
      forall i | 0 <= i < |seen| && CanAct(seen[i]) ensures seen[i].user == target {
        assert Acts(directory, seen[i].user);
      }
      OnlyTargetActs(seen, target);
    }
  }

  lemma {:induction false} TwoActing(seen: seq<Status>, i: nat, j: nat)
    requires i < |seen| && j < |seen| && i != j && CanAct(seen[i]) && CanAct(seen[j])
    ensures CountActing(seen) >= 2
  {
    var init := seen[..|seen| - 1];
    if i == |seen| - 1 {
      OneActing(init, j);
    } else if j == |seen| - 1 {
      OneActing(init, i);
    } else {
      TwoActing(init, i, j);
    }
  }

  lemma {:induction false} OneActing(seen: seq<Status>, i: nat)
    requires i < |seen| && CanAct(seen[i])
    ensures CountActing(seen) >= 1
  {
    if i < |seen| - 1 {
      OneActing(seen[..|seen| - 1], i);
    }
  }

  lemma {:induction false} LiveConcat(a: seq<User>, b: seq<User>, directory: Directory)
    requires forall user :: user in a + b ==> user in directory
    ensures forall user :: user in a || user in b ==> user in directory
    ensures Live(a + b, directory) == Live(a, directory) + Live(b, directory)
    decreases |b|
  {
    assert forall user :: user in a || user in b ==> user in a + b;
    if b == [] {
      assert a + b == a;
    } else {
      var init := b[..|b| - 1];
      assert (a + b)[..|a + b| - 1] == a + init;
      LiveConcat(a, init, directory);
    }
  }

  lemma PageAt(users: seq<User>, page: nat, size: nat, start: nat)
    requires page >= 1 && size > 0 && start == (page - 1) * size <= |users|
    ensures Page(users, page, size) == if start + size <= |users| then users[start..start + size] else users[start..]
  {
    assert page * size == start + size;
  }

  lemma NextPage(users: seq<User>, directory: Directory, page: nat, size: nat, start: nat)
    requires page >= 1 && size > 0 && start == (page - 1) * size <= |users|
    requires forall user :: user in users ==> user in directory
    ensures var found := Page(users, page, size);
            && start + |found| <= |users|
            && (forall user :: user in found ==> user in directory)
            && Live(users[..start + |found|], directory) == Live(users[..start], directory) + Live(found, directory)
            && |found| <= size && (|found| == size ==> start + |found| == page * size)
            && (|found| < size ==> start + |found| == |users|)
  {
    PageAt(users, page, size, start);
    var found := Page(users, page, size);
    assert users[..start] + found == users[..start + |found|];
    LiveConcat(users[..start], found, directory);
    assert page * size == start + size;
  }

  /** A full listing shows a live account as an admin exactly when it is one. */
  lemma SeenAdminIff(users: seq<User>, directory: Directory, target: User)
    requires (forall user :: user in users <==> user in directory) && target in directory && !directory[target].deleted
    requires forall i, j :: 0 <= i < j < |users| ==> users[i] != users[j]
    ensures SeenAdmin(Live(users, directory), target) <==> directory[target].admin
  {
    LiveListsEachOnce(users, directory);
  }

  datatype Outcome = NotFound | Violation | Done(changed: bool)

  const PAGE_SIZE: nat := 1000

  /** The account server, with its guarded operations each run without interruption. */
  class AccountServer {
    var users: seq<User>
    var directory: Directory

    ghost predicate Valid()
      reads this
    {
      && (forall user :: user in users <==> user in directory)
      && (forall i, j :: 0 <= i < j < |users| ==> users[i] != users[j])
    }

    ghost predicate IsLast(user: User)
      reads this
    {
      Acts(directory, user) && !AnotherActs(directory, user)
    }

    method ListPage(found: seq<User>) returns (seen: seq<Status>)
      requires forall user :: user in found ==> user in directory
      ensures seen == Live(found, directory)
    {
      seen := [];
      for k := 0 to |found|
        invariant seen == Live(found[..k], directory)
      {
        assert found[..k + 1][..k] == found[..k];
        if !directory[found[k]].deleted {
          seen := seen + [StatusOf(directory, found[k])];
        }
      }
      assert found[..|found|] == found;
    }

    /** Every live account once, page by page until a short one. */
    method ListServerAdmins() returns (seen: seq<Status>)
      requires Valid()
      ensures seen == Live(users, directory)
    {
      seen := [];
      var page := 1;
      ghost var start := 0;
      while true
        invariant page >= 1 && start == (page - 1) * PAGE_SIZE <= |users|
        invariant seen == Live(users[..start], directory)
        decreases |users| - start
      {
        NextPage(users, directory, page, PAGE_SIZE, start);
        var found := Page(users, page, PAGE_SIZE);
        var more := ListPage(found);
        seen := seen + more;
        start := start + |found|;
        if |found| < PAGE_SIZE {
          break;
        }
        page := page + 1;
      }
      assert users[..start] == users;
    }

    /** `_guard_last_admin`: list, count, refuse. */
    method GuardLastAdmin(target: User) returns (ok: bool)
      requires Valid()
      ensures ok <==> !IsLast(target)
    {
      var admins := ListServerAdmins();
      var count, targetIsAdmin := 0, false;
      for k := 0 to |admins|
        invariant count == CountActing(admins[..k])
        invariant targetIsAdmin <==> exists i :: 0 <= i < k && admins[i].user == target && CanAct(admins[i])
      {
        assert admins[..k + 1][..k] == admins[..k];
        if CanAct(admins[k]) {
          count := count + 1;
        }
        if admins[k].user == target && CanAct(admins[k]) {
          targetIsAdmin := true;
        }
      }
      assert admins[..|admins|] == admins;
      RefusesExactlyTheLast(users, directory, Disable, target);
      ok := !Violates(true, targetIsAdmin, count);
    }

    method DisableUser(current: User, target: User) returns (ok: bool)
      requires Valid()
      modifies this`directory
      ensures Valid()
      ensures ok <==> current != target && !old(IsLast(target))
      ensures directory == if !ok || target !in old(directory) then old(directory)
                           else old(directory)[target := old(directory)[target].(banned := true)]
      ensures ok ==> directory == Mutated(old(directory), Disable, target, [])
      ensures old(SomeoneActs(directory)) ==> SomeoneActs(directory)
    {
      if current == target {
        return false;
      }
      ok := GuardLastAdmin(target);
      if ok && target in directory {
        SparingKeepsSomeone(directory, Disable, target, []);
        directory := directory[target := directory[target].(banned := true)];
      }
    }

    /** Deletion by another admin; the account's own deletion is the same without the first check. */
    method DeleteUser(current: User, target: User) returns (ok: bool)
      requires Valid()
      modifies this`directory
      ensures Valid()
      ensures ok <==> current != target && !old(IsLast(target))
      ensures directory == if !ok || target !in old(directory) then old(directory)
                           else old(directory)[target := old(directory)[target].(deleted := true)]
      ensures ok ==> directory == Mutated(old(directory), Delete, target, [])
      ensures old(SomeoneActs(directory)) ==> SomeoneActs(directory)
    {
      if current == target {
        return false;
      }
      ok := GuardLastAdmin(target);
      if ok && target in directory {
        SparingKeepsSomeone(directory, Delete, target, []);
        directory := directory[target := directory[target].(deleted := true)];
      }
    }

    /** The first live account of this address, whatever its case. */
    method ByEmail(email: string) returns (found: bool, target: Status)
      requires Valid()
      ensures found ==> target.user in directory && !directory[target.user].deleted
      ensures found ==>
                && target == StatusOf(directory, target.user)
                && Lower(directory[target.user].email) == Lower(email)
      ensures found ==> exists n :: && 0 <= n < |users| && users[n] == target.user
                                    && forall m :: 0 <= m < n && !directory[users[m]].deleted ==>
                                         Lower(directory[users[m]].email) != Lower(email)
      ensures !found ==> forall user :: user in directory && !directory[user].deleted ==>
        Lower(directory[user].email) != Lower(email)
    {
      var seen := ListServerAdmins();
      LiveListsEachOnce(users, directory);
      found, target := false, Status(0, false, false);
      var k := 0;
      while k < |seen| && !found
        invariant k <= |seen|
        invariant found ==> k < |seen| && target == seen[k] && Lower(directory[target.user].email) == Lower(email)
        invariant forall i :: 0 <= i < k ==> Lower(directory[seen[i].user].email) != Lower(email)
        decreases |seen| - k, !found
      {
        if Lower(directory[seen[k].user].email) == Lower(email) {
          found, target := true, seen[k];
        } else {
          k := k + 1;
        }
      }
      if found {
        FirstLive(users, directory, k, email);
      }
    }

    /** Promote by address; an empty one names nobody. */
    method GrantAdmin(email: string) returns (outcome: Outcome, target: User)
      requires Valid()
      modifies this`directory
      ensures Valid()
      ensures outcome != Violation
      ensures outcome == NotFound <==>
        email == "" || forall user :: user in old(directory) && !old(directory)[user].deleted ==>
                         Lower(old(directory)[user].email) != Lower(email)
      ensures outcome != NotFound ==>
        && target in old(directory) && Lower(old(directory)[target].email) == Lower(email)
        && outcome.changed == !old(directory)[target].admin
      ensures directory == if outcome.Done? then old(directory)[target := old(directory)[target].(admin := true)]
                           else old(directory)
      ensures old(SomeoneActs(directory)) ==> SomeoneActs(directory)
    {
      if email == "" {
        return NotFound, 0;
      }
      var found, status := ByEmail(email);
      target := status.user;
      if !found {
        return NotFound, target;
      }
      SparingKeepsSomeone(directory, Grant, target, [status]);
      assert [status][0].user == target;
      if !status.admin {
        directory := directory[target := directory[target].(admin := true)];
      } else {
        assert directory[target := directory[target].(admin := true)] == directory;
      }
      outcome := Done(!status.admin);
    }

    /** Grant or revoke by address, under the lock. */
    method SetAdmin(email: string, isAdmin: bool) returns (outcome: Outcome, target: User)
      requires Valid()
      modifies this`directory
      ensures Valid()
      ensures outcome == NotFound <==>
        forall user :: user in old(directory) && !old(directory)[user].deleted ==>
          Lower(old(directory)[user].email) != Lower(email)
      ensures outcome != NotFound ==>
        && target in old(directory) && Lower(old(directory)[target].email) == Lower(email)
        && (outcome == Violation <==> !isAdmin && old(IsLast(target)))
        && (outcome.Done? ==> (outcome.changed <==> old(directory)[target].admin != isAdmin))
      ensures directory == if outcome.Done? then old(directory)[target := old(directory)[target].(admin := isAdmin)]
                           else old(directory)
      ensures outcome.Done? ==>
        directory == Mutated(old(directory), if isAdmin then Grant else Revoke, target,
                             Live(users, old(directory)))
      ensures old(SomeoneActs(directory)) ==> SomeoneActs(directory)
    {
      var found, status := ByEmail(email);
      target := status.user;
      if !found {
        return NotFound, target;
      }
      var spared := GuardLastAdmin(target);
      if !isAdmin && !spared {
        return Violation, target;
      }
      var changed := status.admin != isAdmin;
      SeenAdminIff(users, directory, target);
      SparingKeepsSomeone(directory, if isAdmin then Grant else Revoke, target, [status]);
      assert [status][0].user == target;
      if changed {
        directory := directory[target := directory[target].(admin := isAdmin)];
      } else {
        assert directory[target := directory[target].(admin := isAdmin)] == directory;
      }
      outcome := Done(changed);
    }
  }

  lemma {:induction false} LiveUpTo(users: seq<User>, directory: Directory, k: nat) returns (n: nat)
    requires forall user :: user in users ==> user in directory
    requires k < |Live(users, directory)|
    ensures n < |users| && users[n] == Live(users, directory)[k].user
    ensures Live(users[..n], directory) == Live(users, directory)[..k]
  {
    var last := |users| - 1;
    if !directory[users[last]].deleted && k == |Live(users, directory)| - 1 {
      n := last;
    } else {
      n := LiveUpTo(users[..last], directory, k);
      assert users[..last][..n] == users[..n];
    }
  }

  /** The first of the listing to match is the first live account to match. */
  lemma FirstLive(users: seq<User>, directory: Directory, k: nat, email: string)
    requires forall user :: user in users <==> user in directory
    requires forall i, j :: 0 <= i < j < |users| ==> users[i] != users[j]
    requires k < |Live(users, directory)|
    requires forall i :: 0 <= i < |Live(users, directory)| ==> Live(users, directory)[i].user in directory
    requires forall i :: 0 <= i < k ==> Lower(directory[Live(users, directory)[i].user].email) != Lower(email)
    ensures exists n :: && 0 <= n < |users| && users[n] == Live(users, directory)[k].user
                        && forall m :: 0 <= m < n && !directory[users[m]].deleted ==>
                             Lower(directory[users[m]].email) != Lower(email)
  {
    var n := LiveUpTo(users, directory, k);
    var first := users[..n];
    LiveListsEachOnce(first, directory);
    forall m | 0 <= m < n && !directory[users[m]].deleted
      ensures Lower(directory[users[m]].email) != Lower(email)
    {
      assert first[m] == users[m] && users[m] in first;
      var i :| 0 <= i < |Live(first, directory)| && Live(first, directory)[i].user == users[m];
      assert Live(first, directory)[i] == Live(users, directory)[i];
    }
  }

  lemma SparingKeepsSomeone(directory: Directory, op: Operation, target: User, seen: seq<Status>)
    requires Removes(op) ==> !(Acts(directory, target) && !AnotherActs(directory, target))
    ensures SomeoneActs(directory) ==> SomeoneActs(Mutated(directory, op, target, seen))
  {
    if SomeoneActs(directory) {
      var user :| Acts(directory, user);
      assert user != target ==> AnotherActs(directory, target);
      MutateKeepsSomeone(directory, op, target, seen);
    }
  }
}
