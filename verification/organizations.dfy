/** Organization membership: every organization keeps an owner through creation, joining, role changes,
    removals and account deletion. */
module Organizations {
  import opened Strings

  type Org = nat
  type User = nat

  datatype Role = Owner | Member

  /** The two tables; a membership is keyed by organization and user. */
  datatype Tables = Tables(orgs: set<Org>, roles: map<(Org, User), Role>)

  predicate IsOwner(t: Tables, org: Org, user: User) { (org, user) in t.roles && t.roles[(org, user)] == Owner }

  function Owners(t: Tables, org: Org): set<User> {
    set key | key in t.roles && key.0 == org && t.roles[key] == Owner :: key.1
  }

  function Members(t: Tables, org: Org): set<User> {
    set key | key in t.roles && key.0 == org :: key.1
  }

  /** A membership's organization exists: its foreign key. */
  ghost predicate Keyed(t: Tables) { forall key :: key in t.roles ==> key.0 in t.orgs }

  ghost predicate Owned(t: Tables) { forall org :: org in t.orgs ==> Owners(t, org) != {} }

  ghost predicate Valid(t: Tables) { Keyed(t) && Owned(t) }

  /** The database trigger refuses to take this ownership away. It lets a cascade through: the
      organization gone, or the user no longer among the accounts. */
  predicate TriggerRefuses(t: Tables, org: Org, user: User, known: bool) {
    IsOwner(t, org, user) && org in t.orgs && known && Owners(t, org) - {user} == {}
  }

  /** `ensure_not_last_owner` raises. */
  predicate IsLastOwner(t: Tables, org: Org, user: User) {
    IsOwner(t, org, user) && |Owners(t, org)| <= 1
  }

  /** The organization's one owner is this user. */
  ghost predicate SoleOwner(t: Tables, org: Org, user: User) {
    && (org, user) in t.roles && t.roles[(org, user)] == Owner
    && forall other :: (org, other) in t.roles && t.roles[(org, other)] == Owner ==> other == user
  }

  lemma SoleOwnerIsAll(t: Tables, org: Org, user: User)
    ensures SoleOwner(t, org, user) <==> Owners(t, org) == {user}
  {
    if SoleOwner(t, org, user) {
      assert user in Owners(t, org) by { assert (org, user) in t.roles; }
      forall other | other in Owners(t, org) ensures other == user {
        var key :| key in t.roles && key.0 == org && t.roles[key] == Owner && key.1 == other;
        assert key == (org, other);
      }
    }
    if Owners(t, org) == {user} {
      assert user in Owners(t, org);
      var key :| key in t.roles && key.0 == org && t.roles[key] == Owner && key.1 == user;
      assert key == (org, user);
      forall other | (org, other) in t.roles && t.roles[(org, other)] == Owner ensures other == user {
        assert other in Owners(t, org);
      }
    }
  }

  /** The trigger refuses to take the ownership of an organization's one owner, unless the organization or
      the account is gone already: a cascade goes through. */
  lemma TriggerRefusesIff(t: Tables, org: Org, user: User, known: bool)
    ensures TriggerRefuses(t, org, user, known) <==> SoleOwner(t, org, user) && org in t.orgs && known
  {
    SoleOwnerIsAll(t, org, user);
    if (org, user) in t.roles && t.roles[(org, user)] == Owner {
      assert user in Owners(t, org);
      assert Owners(t, org) - {user} == {} <==> Owners(t, org) == {user};
    }
  }

  /** The organization's one member is this user. */
  ghost predicate SoleMember(t: Tables, org: Org, user: User) {
    (org, user) in t.roles && forall other :: (org, other) in t.roles ==> other == user
  }

  lemma SoleMemberIsAll(t: Tables, org: Org, user: User)
    ensures SoleMember(t, org, user) <==> Members(t, org) == {user}
  {
    if SoleMember(t, org, user) {
      assert user in Members(t, org) by { assert (org, user) in t.roles; }
      forall other | other in Members(t, org) ensures other == user {
        var key :| key in t.roles && key.0 == org && key.1 == other;
        assert key == (org, other);
      }
    }
    if Members(t, org) == {user} {
      assert user in Members(t, org);
      var key :| key in t.roles && key.0 == org && key.1 == user;
      assert key == (org, user);
      forall other | (org, other) in t.roles ensures other == user {
        assert other in Members(t, org);
      }
    }
  }

  /** The application's count and the trigger agree, and both mean what they say. */
  lemma LastOwnerMeansSole(t: Tables, org: Org, user: User)
    requires Keyed(t)
    ensures IsLastOwner(t, org, user) <==> Owners(t, org) == {user}
    ensures TriggerRefuses(t, org, user, true) <==> IsLastOwner(t, org, user)
    ensures !TriggerRefuses(t, org, user, false)
  {
    var owners := Owners(t, org);
    if IsOwner(t, org, user) {
      assert user in owners by { assert (org, user) in t.roles; }
      if owners - {user} == {} {
        assert owners == {user};
      } else {
        assert |owners - {user}| >= 1;
        assert owners != {user};
      }
    } else {
      assert user !in owners;
    }
  }

  // ── The operations on the tables ──────────────────────────────────────────────────────────────

  function Seated(t: Tables, org: Org, user: User): Tables {
    Tables(t.orgs + {org}, t.roles[(org, user) := Owner])
  }

  function Joined(t: Tables, org: Org, user: User, role: Role): Tables {
    if org !in t.orgs || (org, user) in t.roles then t else t.(roles := t.roles[(org, user) := role])
  }

  function WithRole(t: Tables, org: Org, user: User, role: Role): Tables {
    t.(roles := t.roles[(org, user) := role])
  }

  function Without(t: Tables, org: Org, user: User): Tables { t.(roles := t.roles - {(org, user)}) }

  /** Organizations whose only owner or only member is `user`. */
  predicate Doomed(t: Tables, org: Org, user: User) {
    (org, user) in t.roles && (Owners(t, org) == {user} || Members(t, org) == {user})
  }

  /** The tables after the account deletion, stated outright. */
  function Forgotten(t: Tables, user: User): Tables {
    Tables(set org | org in t.orgs && !Doomed(t, org, user),
           map key | key in t.roles && key.1 != user && !Doomed(t, key.0, user) :: t.roles[key])
  }

  // ── The store ─────────────────────────────────────────────────────────────────────────────────

  datatype Option<T> = None | Some(value: T)

  datatype Status = Pending | Accepted | Revoked

  datatype Invitation = Invitation(org: Org, address: string, role: Role, status: Status)

  datatype Outcome = LastOwnerViolation | NotFound | Done

  class OrganizationStore {
    var tables: Tables

    constructor ()
      ensures tables == Tables({}, map[])
    {
      tables := Tables({}, map[]);
    }

    /** Organization and owner in one statement; a taken id is refused. */
    method CreateWithOwner(org: Org, user: User) returns (ok: bool)
      requires Valid(tables)
      modifies this
      ensures ok <==> org !in old(tables).orgs
      ensures tables == Apply(old(tables), Create(org, user))
      ensures tables == if !ok then old(tables)
                        else Tables(old(tables).orgs + {org}, old(tables).roles[(org, user) := Owner])
      ensures Valid(tables)
    {
      ok := org !in tables.orgs;
      if ok {
        SeatedKeepsValid(tables, org, user);
        tables := Seated(tables, org, user);
      }
    }

    /** An invitation found by its token: an accepted one changes nothing, any other but a pending one of
        the caller's own address is refused, and a pending one seats the caller unless already seated. */
    method AcceptInvitation(found: Option<Invitation>, user: User, address: string)
      returns (outcome: Outcome, after: Option<Invitation>)
      requires Valid(tables)
      modifies this
      ensures outcome == NotFound <==>
        found.None? || (found.value.status != Accepted &&
          (found.value.status != Pending || Lower(found.value.address) != Lower(address)))
      ensures outcome == NotFound || outcome == Done
      ensures outcome == Done ==> after == Some(found.value.(status := Accepted))
      ensures outcome == NotFound ==> after == found
      ensures Valid(tables) && tables.orgs == old(tables).orgs
      ensures outcome == Done && found.value.status == Pending ==>
        tables == Apply(old(tables), Join(found.value.org, user, found.value.role))
      ensures tables.roles ==
              if outcome == Done && found.value.status == Pending
                 && found.value.org in old(tables).orgs && (found.value.org, user) !in old(tables).roles
              then old(tables).roles[(found.value.org, user) := found.value.role] else old(tables).roles
    {
      if found.None? {
        return NotFound, found;
      }
      var invitation := found.value;
      if invitation.status == Accepted {
        return Done, found;
      }
      if invitation.status != Pending || Lower(invitation.address) != Lower(address) {
        return NotFound, found;
      }
      JoinedKeepsValid(tables, invitation.org, user, invitation.role);
      if invitation.org in tables.orgs && (invitation.org, user) !in tables.roles {
        tables := tables.(roles := tables.roles[(invitation.org, user) := invitation.role]);
      }
      outcome, after := Done, Some(invitation.(status := Accepted));
    }

    method EnsureNotLastOwner(org: Org, user: User) returns (ok: bool)
      requires Keyed(tables)
      ensures ok <==> !SoleOwner(tables, org, user)
    {
      LastOwnerMeansSole(tables, org, user);
      SoleOwnerIsAll(tables, org, user);
      if (org, user) !in tables.roles || tables.roles[(org, user)] != Owner {
        return true;
      }
      ok := |Owners(tables, org)| > 1;
    }

    method RemoveMember(org: Org, user: User) returns (outcome: Outcome)
      requires Valid(tables)
      modifies this
      ensures outcome == LastOwnerViolation <==> SoleOwner(old(tables), org, user)
      ensures outcome == NotFound <==> (org, user) !in old(tables).roles
      ensures Valid(tables) && tables.orgs == old(tables).orgs
      ensures tables.roles == if outcome == Done then old(tables).roles - {(org, user)} else old(tables).roles
      ensures tables == Apply(old(tables), Remove(org, user))
    {
      LastOwnerMeansSole(tables, org, user);
      SoleOwnerIsAll(tables, org, user);
      var ok := EnsureNotLastOwner(org, user);
      if !ok {
        return LastOwnerViolation;
      }
      if (org, user) !in tables.roles {
        return NotFound;
      }
      WithoutKeepsValid(tables, org, user);
      tables := Without(tables, org, user);
      outcome := Done;
    }

    method UpdateMemberRole(org: Org, user: User, role: Role) returns (outcome: Outcome)
      requires Valid(tables)
      modifies this
      ensures outcome == LastOwnerViolation <==> role != Owner && SoleOwner(old(tables), org, user)
      ensures outcome == NotFound <==> (org, user) !in old(tables).roles
      ensures Valid(tables) && tables.orgs == old(tables).orgs
      ensures tables.roles == if outcome == Done then old(tables).roles[(org, user) := role] else old(tables).roles
      ensures tables == Apply(old(tables), SetRole(org, user, role))
    {
      LastOwnerMeansSole(tables, org, user);
      SoleOwnerIsAll(tables, org, user);
      if role != Owner {
        var ok := EnsureNotLastOwner(org, user);
        if !ok {
          return LastOwnerViolation;
        }
      }
      if (org, user) !in tables.roles {
        return NotFound;
      }
      WithRoleKeepsValid(tables, org, user, role);
      tables := WithRole(tables, org, user, role);
      outcome := Done;
    }

    /** One membership row deleted; the trigger would refuse a sole owner's. */
    method DeleteMembership(org: Org, user: User)
      requires !TriggerRefuses(tables, org, user, true)
      modifies this
      ensures tables == Without(old(tables), org, user)
      ensures tables.orgs == old(tables).orgs && tables.roles == old(tables).roles - {(org, user)}
    {
      tables := Without(tables, org, user);
    }

    /** The organization and, by cascade, its memberships. */
    method DeleteOrganization(org: Org)
      modifies this
      ensures tables == Deleted(old(tables), org) && tables.orgs == old(tables).orgs - {org}
      ensures forall key :: key in tables.roles <==> key in old(tables).roles && key.0 != org
      ensures forall key :: key in tables.roles ==> tables.roles[key] == old(tables).roles[key]
    {
      tables := Deleted(tables, org);
    }

    /** The first loop of `_forget_user`: drop the user's memberships but where they are the sole owner. */
    method DropMemberships(user: User, orgIds: set<Org>) returns (doomed: set<Org>)
      requires Keyed(tables) && orgIds == OrgsOf(tables, user)
      modifies this
      ensures tables == Dropped(old(tables), user, orgIds)
      ensures forall org :: org in doomed <==> org in orgIds && Owners(old(tables), org) == {user}
    {
      doomed := {};
      var left := orgIds;
      DroppedNone(tables, user);
      while left != {}
        invariant left <= orgIds
        invariant tables == Dropped(old(tables), user, orgIds - left)
        invariant forall org :: org in doomed <==> org in orgIds - left && Owners(old(tables), org) == {user}
      {
        var org :| org in left;
        DropStep(old(tables), user, orgIds - left, org);
        assert orgIds - (left - {org}) == orgIds - left + {org};
        var otherOwners := |Owners(tables, org) - {user}|;
        if tables.roles[(org, user)] == Owner && otherOwners == 0 {
          doomed := doomed + {org};
        } else {
          DeleteMembership(org, user);
        }
        left := left - {org};
      }
      assert orgIds - left == orgIds;
    }

    /** The second loop: delete the organizations left without owner or member. */
    method DeleteLeftovers(orgIds: set<Org>, doomed: set<Org>)
      requires orgIds <= tables.orgs
      modifies this
      ensures tables == Cut(old(tables), set org | org in orgIds && (org in doomed || Members(old(tables), org) == {}))
    {
      var left := orgIds;
      ghost var cut: set<Org> := {};
      CutNone(tables);
      while left != {}
        invariant left <= orgIds
        invariant cut == set org | org in orgIds - left && (org in doomed || Members(old(tables), org) == {})
        invariant tables == Cut(old(tables), cut)
      {
        var org :| org in left;
        CutView(old(tables), cut, org);
        assert org in tables.orgs;
        assert forall o :: o in orgIds - (left - {org}) <==> o in orgIds - left || o == org;
        var remaining := |Members(tables, org)|;
        if org in doomed || remaining == 0 {
          CutMore(old(tables), cut, org);
          DeleteOrganization(org);
          cut := cut + {org};
        }
        left := left - {org};
      }
      assert orgIds - left == orgIds;
    }

    /** `_forget_user`: drop the user's memberships, then the organizations left without owner or member. */
    method ForgetUser(user: User)
      requires Keyed(tables)
      modifies this
      ensures tables == Forgotten(old(tables), user) == Apply(old(tables), Forget(user))
    {
      var orgIds := OrgsOf(tables, user);
      var doomed := DropMemberships(user, orgIds);
      DroppedCounts(old(tables), user, orgIds);
      CutIsForgotten(old(tables), user, orgIds);
      DeleteLeftovers(orgIds, doomed);
      assert (set org | org in orgIds && (org in doomed || Members(Dropped(old(tables), user, orgIds), org) == {}))
          == set org | org in orgIds && Doomed(old(tables), org, user);
    }
  }

  function OrgsOf(t: Tables, user: User): set<Org> {
    set key | key in t.roles && key.1 == user :: key.0
  }

  function Deleted(t: Tables, org: Org): Tables {
    Tables(t.orgs - {org}, map key | key in t.roles && key.0 != org :: t.roles[key])
  }

  /** The first loop's result after the organizations `done`: the user's memberships gone but where they
      are the sole owner. */
  ghost function Dropped(t: Tables, user: User, done: set<Org>): Tables {
    t.(roles := map key | key in t.roles && !(key.1 == user && key.0 in done && Owners(t, key.0) != {user})
                  :: t.roles[key])
  }

  lemma DroppedNone(t: Tables, user: User)
    ensures Dropped(t, user, {}) == t
  {
    assert Dropped(t, user, {}).roles == t.roles;
  }

  lemma DroppedOwners(t: Tables, user: User, done: set<Org>, org: Org)
    requires org !in done
    ensures Owners(Dropped(t, user, done), org) == Owners(t, org)
  {
    var after := Dropped(t, user, done);
    forall u ensures u in Owners(after, org) <==> u in Owners(t, org) {
      assert IsOwner(after, org, u) <==> IsOwner(t, org, u);
      assert u in Owners(after, org) <==> IsOwner(after, org, u);
      assert u in Owners(t, org) <==> IsOwner(t, org, u);
    }
  }

  /** One turn of the first loop, and why the trigger never refuses its delete. */
  lemma DropStep(t: Tables, user: User, done: set<Org>, org: Org)
    requires Keyed(t) && org !in done && org in OrgsOf(t, user)
    ensures var now := Dropped(t, user, done);
            && (org, user) in now.roles
            && (now.roles[(org, user)] == Owner && |Owners(now, org) - {user}| == 0 <==> Owners(t, org) == {user})
            && (Owners(t, org) == {user} ==> Dropped(t, user, done + {org}) == now)
            && (Owners(t, org) != {user} ==>
                  Dropped(t, user, done + {org}) == Without(now, org, user) && !TriggerRefuses(now, org, user, true))
  {
    var now := Dropped(t, user, done);
    var key :| key in t.roles && key.1 == user && key.0 == org;
    assert key == (org, user);
    DroppedOwners(t, user, done, org);
    LastOwnerMeansSole(now, org, user);
    if now.roles[(org, user)] == Owner && |Owners(now, org) - {user}| == 0 {
      assert Owners(now, org) - {user} == {};
      assert TriggerRefuses(now, org, user, true);
    }
    if Owners(t, org) == {user} {
      assert user in Owners(now, org);
      assert Owners(now, org) - {user} == {};
      assert Dropped(t, user, done + {org}).roles == now.roles;
    } else {
      assert Dropped(t, user, done + {org}).roles == Without(now, org, user).roles;
    }
  }

  /** After the first loop nobody is left exactly where the user was the only member and not its owner. */
  lemma DroppedCounts(t: Tables, user: User, done: set<Org>)
    requires done == set key | key in t.roles && key.1 == user :: key.0
    ensures forall org :: org in done ==>
      (Owners(t, org) == {user} || Members(Dropped(t, user, done), org) == {} <==> Doomed(t, org, user))
  {
    var after := Dropped(t, user, done);
    forall org | org in done
      ensures Owners(t, org) == {user} || Members(after, org) == {} <==> Doomed(t, org, user)
    {
      var key :| key in t.roles && key.1 == user && key.0 == org;
      assert key == (org, user);
      if Owners(t, org) != {user} {
        forall u ensures u in Members(after, org) <==> u in Members(t, org) && u != user {
          assert u in Members(after, org) <==> (org, u) in after.roles;
          assert u in Members(t, org) <==> (org, u) in t.roles;
        }
        assert user in Members(t, org);
        if Members(after, org) == {} {
          assert Members(t, org) == {user};
        } else {
          var u :| u in Members(after, org);
          assert Members(t, org) != {user};
        }
      }
    }
  }

  /** The organizations `gone` deleted, with their memberships. */
  ghost function Cut(t: Tables, gone: set<Org>): Tables {
    Tables(t.orgs - gone, map key | key in t.roles && key.0 !in gone :: t.roles[key])
  }

  lemma CutNone(t: Tables)
    ensures Cut(t, {}) == t
  {
    assert Cut(t, {}).roles == t.roles;
  }

  lemma CutView(t: Tables, gone: set<Org>, org: Org)
    requires org !in gone
    ensures Members(Cut(t, gone), org) == Members(t, org)
  {
    forall u ensures u in Members(Cut(t, gone), org) <==> u in Members(t, org) {
      assert u in Members(Cut(t, gone), org) <==> (org, u) in Cut(t, gone).roles;
      assert u in Members(t, org) <==> (org, u) in t.roles;
    }
  }

  lemma CutMore(t: Tables, gone: set<Org>, org: Org)
    ensures Deleted(Cut(t, gone), org) == Cut(t, gone + {org})
  {
    assert Deleted(Cut(t, gone), org).roles == Cut(t, gone + {org}).roles;
  }

  lemma CutIsForgotten(t: Tables, user: User, done: set<Org>)
    requires Keyed(t) && done == set key | key in t.roles && key.1 == user :: key.0
    ensures Cut(Dropped(t, user, done), set org | org in done && Doomed(t, org, user)) == Forgotten(t, user)
  {
    var gone := set org | org in done && Doomed(t, org, user);
    forall org: Org ensures org in gone <==> Doomed(t, org, user) {
      if Doomed(t, org, user) {
        assert (org, user) in t.roles;
      }
    }
    var left, right := Cut(Dropped(t, user, done), gone), Forgotten(t, user);
    assert left.orgs == right.orgs;
    forall key: (Org, User) | key in t.roles
      ensures key in left.roles <==> key in right.roles
    {
      if key.1 == user {
        assert key.0 in done;
      }
    }
    assert left.roles == right.roles;
  }

  // ── Each operation keeps an owner ─────────────────────────────────────────────────────────────

  lemma OwnerStays(t: Tables, after: Tables, org: Org, owner: User)
    requires owner in Owners(t, org) && IsOwner(after, org, owner)
    ensures Owners(after, org) != {}
  {
    assert owner in Owners(after, org) by { assert (org, owner) in after.roles; }
  }

  lemma SeatedKeepsValid(t: Tables, org: Org, user: User)
    requires Valid(t) && org !in t.orgs
    ensures Valid(Seated(t, org, user))
  {
    var after := Seated(t, org, user);
    forall o | o in after.orgs ensures Owners(after, o) != {} {
      if o == org {
        assert user in Owners(after, org) by { assert (org, user) in after.roles; }
      } else {
        var owner :| owner in Owners(t, o);
        assert IsOwner(after, o, owner);
        OwnerStays(t, after, o, owner);
      }
    }
  }

  lemma JoinedKeepsValid(t: Tables, org: Org, user: User, role: Role)
    requires Valid(t)
    ensures Valid(Joined(t, org, user, role))
  {
    var after := Joined(t, org, user, role);
    forall o | o in after.orgs ensures Owners(after, o) != {} {
      var owner :| owner in Owners(t, o);
      OwnerStays(t, after, o, owner);
    }
  }

  lemma WithoutKeepsValid(t: Tables, org: Org, user: User)
    requires Valid(t) && Owners(t, org) != {user}
    ensures Valid(Without(t, org, user))
  {
    var after := Without(t, org, user);
    forall o | o in after.orgs ensures Owners(after, o) != {} {
      var owner :| owner in Owners(t, o) && (o != org || owner != user);
      OwnerStays(t, after, o, owner);
    }
  }

  lemma WithRoleKeepsValid(t: Tables, org: Org, user: User, role: Role)
    requires Valid(t) && (org, user) in t.roles
    requires role == Owner || Owners(t, org) != {user}
    ensures Valid(WithRole(t, org, user, role))
  {
    var after := WithRole(t, org, user, role);
    forall o | o in after.orgs ensures Owners(after, o) != {} {
      if role == Owner {
        var owner :| owner in Owners(t, o);
        OwnerStays(t, after, o, owner);
      } else {
        var owner :| owner in Owners(t, o) && (o != org || owner != user);
        OwnerStays(t, after, o, owner);
      }
    }
  }

  /** Deleting an account, whatever the tables held: the user has no membership; an organization goes
      exactly when the user was its only owner or only member; what others hold elsewhere is untouched. */
  lemma ForgottenFrees(t: Tables, user: User)
    requires Keyed(t)
    ensures var after := Forgotten(t, user);
            && (forall org :: (org, user) !in after.roles)
            && (forall org :: org in t.orgs - after.orgs <==>
                  org in t.orgs && (SoleOwner(t, org, user) || SoleMember(t, org, user)))
            && after.orgs <= t.orgs
            && (forall org, other :: other != user && org in after.orgs ==>
                  ((org, other) in after.roles <==> (org, other) in t.roles)
                  && ((org, other) in t.roles ==> after.roles[(org, other)] == t.roles[(org, other)]))
            && Keyed(after)
  {
    var after := Forgotten(t, user);
    forall org | org in t.orgs
      ensures org !in after.orgs <==> SoleOwner(t, org, user) || SoleMember(t, org, user)
    {
      SoleOwnerIsAll(t, org, user);
      SoleMemberIsAll(t, org, user);
    }
  }

  lemma ForgottenKeepsValid(t: Tables, user: User)
    requires Valid(t)
    ensures Valid(Forgotten(t, user))
    ensures forall org, other :: other != user && IsOwner(t, org, other) ==> org in Forgotten(t, user).orgs
  {
    var after := Forgotten(t, user);
    ForgottenFrees(t, user);
    forall org | org in after.orgs ensures Owners(after, org) != {} {
      var owner :| owner in Owners(t, org);
      if owner == user {
        assert (org, user) in t.roles && !Doomed(t, org, user);
        var other :| other in Owners(t, org) && other != user;
        assert IsOwner(after, org, other);
        OwnerStays(t, after, org, other);
      } else {
        assert IsOwner(after, org, owner);
        OwnerStays(t, after, org, owner);
      }
    }
    forall org, other | other != user && IsOwner(t, org, other) ensures org in after.orgs {
      assert other in Owners(t, org) by { assert (org, other) in t.roles; }
      assert other in Members(t, org) by { assert (org, other) in t.roles; }
      assert other !in {user};
    }
  }

  // ── Runs of whole operations ──────────────────────────────────────────────────────────────────

  datatype Act =
    | Create(org: Org, user: User)
    | Join(org: Org, user: User, role: Role)
    | SetRole(org: Org, user: User, role: Role)
    | Remove(org: Org, user: User)
    | Forget(user: User)

  /** Each act leaves the tables as the store's method does. */
  function Apply(t: Tables, a: Act): Tables {
    match a
    case Create(org, user) => if org in t.orgs then t else Seated(t, org, user)
    case Join(org, user, role) => Joined(t, org, user, role)
    case SetRole(org, user, role) =>
      if (org, user) !in t.roles || (role != Owner && IsLastOwner(t, org, user)) then t
      else WithRole(t, org, user, role)
    case Remove(org, user) => if IsLastOwner(t, org, user) then t else Without(t, org, user)
    case Forget(user) => Forgotten(t, user)
  }

  function After(t: Tables, acts: seq<Act>): Tables
    decreases |acts|
  {
    if acts == [] then t else After(Apply(t, acts[0]), acts[1..])
  }

  lemma ApplyKeepsValid(t: Tables, a: Act)
    requires Valid(t)
    ensures Valid(Apply(t, a))
  {
    match a
    case Create(org, user) => if org !in t.orgs { SeatedKeepsValid(t, org, user); }
    case Join(org, user, role) => JoinedKeepsValid(t, org, user, role);
    case SetRole(org, user, role) =>
      LastOwnerMeansSole(t, org, user);
      if (org, user) in t.roles && !(role != Owner && IsLastOwner(t, org, user)) {
        WithRoleKeepsValid(t, org, user, role);
      }
    case Remove(org, user) =>
      LastOwnerMeansSole(t, org, user);
      if !IsLastOwner(t, org, user) {
        WithoutKeepsValid(t, org, user);
      }
    case Forget(user) => ForgottenKeepsValid(t, user);
  }

  lemma {:induction false} RunKeepsValid(t: Tables, acts: seq<Act>)
    requires Valid(t)
    ensures Valid(After(t, acts))
    decreases |acts|
  {
    if acts != [] {
      ApplyKeepsValid(t, acts[0]);
      RunKeepsValid(Apply(t, acts[0]), acts[1..]);
    }
  }

  /** With each operation atomic, every organization keeps an owner in every run. */
  lemma EveryOrganizationKeepsAnOwner(t: Tables, acts: seq<Act>)
    requires Keyed(t) && forall org :: org in t.orgs ==> HasOwner(t, org)
    ensures var after := After(t, acts);
            Keyed(after) && forall org :: org in after.orgs ==> HasOwner(after, org)
  {
    forall org | org in t.orgs ensures Owners(t, org) != {} {
      OwnersOwn(t, org);
    }
    RunKeepsValid(t, acts);
    var after := After(t, acts);
    forall org | org in after.orgs ensures HasOwner(after, org) {
      OwnersOwn(after, org);
    }
  }

  ghost predicate HasOwner(t: Tables, org: Org) {
    exists user :: (org, user) in t.roles && t.roles[(org, user)] == Owner
  }

  lemma OwnersOwn(t: Tables, org: Org)
    ensures HasOwner(t, org) <==> Owners(t, org) != {}
  {
    if user :| (org, user) in t.roles && t.roles[(org, user)] == Owner {
      assert user in Owners(t, org);
    }
    if user :| user in Owners(t, org) {
      var key :| key in t.roles && key.0 == org && t.roles[key] == Owner && key.1 == user;
      assert key == (org, user);
    }
  }
}
