/** Organization ownership under concurrent transactions: what a removal must find, beyond what the
    application and the database check, for every organization to keep an owner. */
module OwnerRaces {
  import opened Organizations

  type Row = (Org, User)

  /** What an open transaction has written: memberships dropped or demoted, organizations deleted. */
  datatype Open = Open(drops: set<Row>, demotes: set<Row>, deletes: set<Org>)

  function Touched(o: Open): set<Row> { o.drops + o.demotes }

  /** `tables` is what is committed. */
  datatype State = State(tables: Tables, open: map<nat, Open>)

  /** What a transaction sees: the committed tables under its own writes. */
  function View(t: Tables, o: Open): Tables {
    Tables(t.orgs - o.deletes,
           map key | key in t.roles && key !in o.drops && key.0 !in o.deletes
             :: if key in o.demotes then Member else t.roles[key])
  }

  datatype Step =
    | Begin(tx: nat)
    | Drop(tx: nat, org: Org, user: User)
    | Demote(tx: nat, org: Org, user: User)
    | Delete(tx: nat, org: Org)
    | Commit(tx: nat)
    | Abort(tx: nat)
    | Whole(act: Act)

  /** No other open transaction holds the row's lock, or the organization's. */
  predicate Free(s: State, tx: nat, org: Org, user: User) {
    forall other :: other in s.open && other != tx ==>
      (org, user) !in Touched(s.open[other]) && org !in s.open[other].deletes
  }

  /** Both checks of a removal pass on what its transaction sees. */
  predicate Passes(t: Tables, org: Org, user: User) {
    (org, user) in t.roles && !IsLastOwner(t, org, user) && !TriggerRefuses(t, org, user, true)
  }

  /** Which is to say: a membership other than a sole owner's. */
  lemma PassesIff(t: Tables, org: Org, user: User)
    requires Keyed(t)
    ensures Passes(t, org, user) <==> (org, user) in t.roles && !SoleOwner(t, org, user)
  {
    LastOwnerMeansSole(t, org, user);
    SoleOwnerIsAll(t, org, user);
  }

  /** An account deletion is a transaction of drops and deletes; which organizations it deletes it decided
      earlier, so a delete is not checked at all. Whole operations take no ownership away. */
  predicate CanStep(s: State, step: Step) {
    match step
    case Begin(tx) => tx !in s.open
    case Drop(tx, org, user) => tx in s.open && Free(s, tx, org, user) && Passes(View(s.tables, s.open[tx]), org, user)
    case Demote(tx, org, user) =>
      tx in s.open && Free(s, tx, org, user) && Passes(View(s.tables, s.open[tx]), org, user)
    case Delete(tx, org) =>
      && tx in s.open && org in View(s.tables, s.open[tx]).orgs
      && (forall other, key :: other in s.open && other != tx && key in Touched(s.open[other]) ==> key.0 != org)
      && (forall other :: other in s.open && other != tx ==> org !in s.open[other].deletes)
    case Commit(tx) => tx in s.open
    case Abort(tx) => tx in s.open
    case Whole(act) =>
      && (act.Create? || act.Join? || (act.SetRole? && act.role == Owner))
      && (forall tx :: tx in s.open ==> (act.org, act.user) !in Touched(s.open[tx]) && act.org !in s.open[tx].deletes)
  }

  function StepOf(s: State, step: Step): State {
    match step
    case Begin(tx) => s.(open := s.open[tx := Open({}, {}, {})])
    case Drop(tx, org, user) =>
      if tx !in s.open then s else s.(open := s.open[tx := s.open[tx].(drops := s.open[tx].drops + {(org, user)})])
    case Demote(tx, org, user) =>
      if tx !in s.open then s else s.(open := s.open[tx := s.open[tx].(demotes := s.open[tx].demotes + {(org, user)})])
    case Delete(tx, org) =>
      if tx !in s.open then s else s.(open := s.open[tx := s.open[tx].(deletes := s.open[tx].deletes + {org})])
    case Commit(tx) => if tx !in s.open then s else State(View(s.tables, s.open[tx]), s.open - {tx})
    case Abort(tx) => s.(open := s.open - {tx})
    case Whole(act) => s.(tables := Organizations.Apply(s.tables, act))
  }

  predicate CanRun(s: State, steps: seq<Step>)
    decreases |steps|
  {
    steps == [] || (CanStep(s, steps[0]) && CanRun(StepOf(s, steps[0]), steps[1..]))
  }

  function Ran(s: State, steps: seq<Step>): State
    decreases |steps|
  {
    if steps == [] then s else Ran(StepOf(s, steps[0]), steps[1..])
  }

  function Start(t: Tables): State { State(t, map[]) }

  // ── The guard a removal needs ─────────────────────────────────────────────────────────────────

  /** No open transaction drops or demotes this member. */
  predicate Untouched(s: State, org: Org, user: User) {
    forall tx :: tx in s.open ==> (org, user) !in Touched(s.open[tx])
  }

  /** Besides the member to go, some owner is in no open removal. */
  ghost predicate Guard(s: State, step: Step) {
    step.Drop? || step.Demote? ==>
      exists owner :: owner != step.user && IsOwner(s.tables, step.org, owner) && Untouched(s, step.org, owner)
  }

  ghost predicate AlwaysGuarded(s: State, steps: seq<Step>)
    decreases |steps|
  {
    steps == [] || (Guard(s, steps[0]) && AlwaysGuarded(StepOf(s, steps[0]), steps[1..]))
  }

  // ── Guarded runs keep owners ──────────────────────────────────────────────────────────────────

  ghost predicate Spared(s: State, org: Org) {
    exists owner :: IsOwner(s.tables, org, owner) && Untouched(s, org, owner)
  }

  ghost predicate Deleting(s: State, org: Org) { exists tx :: tx in s.open && org in s.open[tx].deletes }

  /** A deleted organization's memberships are locked against every other transaction. */
  ghost predicate Locked(s: State) {
    && (forall tx, key :: tx in s.open && key in Touched(s.open[tx]) ==> key.0 in s.tables.orgs)
    && (forall tx, other, key :: tx in s.open && other in s.open && tx != other && key in Touched(s.open[other]) ==>
          key.0 !in s.open[tx].deletes)
  }

  ghost predicate Inv(s: State) {
    && Valid(s.tables)
    && Locked(s)
    && (forall org :: org in s.tables.orgs ==> Spared(s, org) || Deleting(s, org))
  }

  lemma OwnersAreOwners(t: Tables, org: Org)
    ensures forall user :: user in Owners(t, org) <==> IsOwner(t, org, user)
  {
    forall user ensures user in Owners(t, org) <==> IsOwner(t, org, user) {
      if IsOwner(t, org, user) {
        assert (org, user) in t.roles;
      }
    }
  }

  lemma OwnedByOne(t: Tables, org: Org, owner: User)
    requires IsOwner(t, org, owner)
    ensures Owners(t, org) != {}
  {
    OwnersAreOwners(t, org);
    assert owner in Owners(t, org);
  }

  lemma AnOwner(t: Tables, org: Org) returns (owner: User)
    requires Owned(t) && org in t.orgs
    ensures IsOwner(t, org, owner)
  {
    OwnersAreOwners(t, org);
    owner :| owner in Owners(t, org);
  }

  /** An organization no new write touches, and whose open deletes stay open, is as safe as before. */
  lemma SafetyKept(s: State, after: State, org: Org)
    requires after.tables == s.tables && (Spared(s, org) || Deleting(s, org))
    requires forall tx, key :: tx in after.open && key in Touched(after.open[tx]) && key.0 == org ==>
      tx in s.open && key in Touched(s.open[tx])
    requires forall tx :: tx in s.open && org in s.open[tx].deletes ==>
      tx in after.open && org in after.open[tx].deletes
    ensures Spared(after, org) || Deleting(after, org)
  {
    if Spared(s, org) {
      var owner :| IsOwner(s.tables, org, owner) && Untouched(s, org, owner);
      assert Untouched(after, org, owner);
    } else {
      var tx :| tx in s.open && org in s.open[tx].deletes;
      assert org in after.open[tx].deletes;
    }
  }

  lemma StagedTouches(s: State, step: Step)
    requires CanStep(s, step) && (step.Drop? || step.Demote?)
    ensures var after := StepOf(s, step);
            && after.tables == s.tables && after.open.Keys == s.open.Keys
            && (forall tx :: tx in s.open ==> after.open[tx].deletes == s.open[tx].deletes)
            && (forall tx, key :: tx in s.open && key in Touched(after.open[tx]) ==>
                  key in Touched(s.open[tx]) || (tx == step.tx && key == (step.org, step.user)))
  {
  }

  lemma StagingKeepsLocked(s: State, step: Step)
    requires Inv(s) && CanStep(s, step) && (step.Drop? || step.Demote?)
    ensures Locked(StepOf(s, step))
  {
    var after := StepOf(s, step);
    StagedTouches(s, step);
    assert (step.org, step.user) in s.tables.roles;
    forall tx, other, key | tx in after.open && other in after.open && tx != other && key in Touched(after.open[other])
      ensures key.0 !in after.open[tx].deletes
    {
      if key !in Touched(s.open[other]) {
        assert Free(s, step.tx, step.org, step.user);
      }
    }
  }

  lemma StagingKeepsInv(s: State, step: Step)
    requires Inv(s) && CanStep(s, step) && Guard(s, step) && (step.Drop? || step.Demote?)
    ensures Inv(StepOf(s, step))
  {
    var after := StepOf(s, step);
    StagedTouches(s, step);
    StagingKeepsLocked(s, step);
    forall org | org in after.tables.orgs ensures Spared(after, org) || Deleting(after, org) {
      if org == step.org {
        var owner :| owner != step.user && IsOwner(s.tables, org, owner) && Untouched(s, org, owner);
        assert Untouched(after, org, owner);
      } else {
        SafetyKept(s, after, org);
      }
    }
  }

  lemma DeleteKeepsLocked(s: State, tx: nat, org: Org)
    requires Inv(s) && CanStep(s, Delete(tx, org))
    ensures Locked(StepOf(s, Delete(tx, org)))
  {
    var after := StepOf(s, Delete(tx, org));
    forall t | t in s.open ensures Touched(after.open[t]) == Touched(s.open[t]) {
    }
    forall t, other, key | t in after.open && other in after.open && t != other && key in Touched(after.open[other])
      ensures key.0 !in after.open[t].deletes
    {
      assert key in Touched(s.open[other]);
    }
  }

  lemma DeleteKeepsInv(s: State, tx: nat, org: Org)
    requires Inv(s) && CanStep(s, Delete(tx, org))
    ensures Inv(StepOf(s, Delete(tx, org)))
  {
    var after := StepOf(s, Delete(tx, org));
    DeleteKeepsLocked(s, tx, org);
    forall o | o in after.tables.orgs ensures Spared(after, o) || Deleting(after, o) {
      SafetyKept(s, after, o);
    }
  }

  /** Where no transaction of the two has written, a commit changes nothing. */
  lemma CommitElsewhere(t: Tables, o: Open, org: Org, user: User)
    requires (org, user) !in Touched(o) && org !in o.deletes
    ensures IsOwner(View(t, o), org, user) <==> IsOwner(t, org, user)
  {
  }

  lemma CommitSpares(s: State, tx: nat, org: Org)
    requires Inv(s) && tx in s.open && org in View(s.tables, s.open[tx]).orgs
    ensures var after := StepOf(s, Commit(tx));
            (Spared(after, org) || Deleting(after, org)) && Owners(after.tables, org) != {}
  {
    var after, o := StepOf(s, Commit(tx)), s.open[tx];
    if Spared(s, org) {
      var owner :| IsOwner(s.tables, org, owner) && Untouched(s, org, owner);
      CommitElsewhere(s.tables, o, org, owner);
      assert Untouched(after, org, owner);
      OwnedByOne(after.tables, org, owner);
    } else {
      var other :| other in s.open && org in s.open[other].deletes;
      assert other in after.open;
      var owner := AnOwner(s.tables, org);
      CommitElsewhere(s.tables, o, org, owner);
      OwnedByOne(after.tables, org, owner);
    }
  }

  lemma CommitKeepsInv(s: State, tx: nat)
    requires Inv(s) && tx in s.open
    ensures Inv(StepOf(s, Commit(tx)))
  {
    var after := StepOf(s, Commit(tx));
    forall org | org in after.tables.orgs
      ensures (Spared(after, org) || Deleting(after, org)) && Owners(after.tables, org) != {}
    {
      CommitSpares(s, tx, org);
    }
  }

  lemma AbortKeepsInv(s: State, tx: nat)
    requires Inv(s) && tx in s.open
    ensures Inv(StepOf(s, Abort(tx)))
  {
    var after := StepOf(s, Abort(tx));
    forall org | org in after.tables.orgs ensures Spared(after, org) || Deleting(after, org) {
      if Spared(s, org) {
        var owner :| IsOwner(s.tables, org, owner) && Untouched(s, org, owner);
        assert Untouched(after, org, owner);
      } else {
        var other :| other in s.open && org in s.open[other].deletes;
        if other != tx {
          assert other in after.open;
        } else {
          var owner := AnOwner(s.tables, org);
          assert Untouched(after, org, owner);
        }
      }
    }
  }

  lemma WholeKeepsOwners(t: Tables, a: Act, org: Org, owner: User)
    requires (a.Create? || a.Join? || (a.SetRole? && a.role == Owner)) && IsOwner(t, org, owner)
    ensures IsOwner(Organizations.Apply(t, a), org, owner)
  {
  }

  lemma WholeKeepsInv(s: State, act: Act)
    requires Inv(s) && CanStep(s, Whole(act))
    ensures Inv(StepOf(s, Whole(act)))
  {
    var after := StepOf(s, Whole(act));
    Organizations.ApplyKeepsValid(s.tables, act);
    forall org | org in after.tables.orgs ensures Spared(after, org) || Deleting(after, org) {
      if org !in s.tables.orgs {
        assert IsOwner(after.tables, org, act.user) && Untouched(after, org, act.user);
      } else if Spared(s, org) {
        var owner :| IsOwner(s.tables, org, owner) && Untouched(s, org, owner);
        WholeKeepsOwners(s.tables, act, org, owner);
        assert Untouched(after, org, owner);
      } else {
        var tx :| tx in s.open && org in s.open[tx].deletes;
        assert org in after.open[tx].deletes;
      }
    }
  }

  lemma BeginKeepsInv(s: State, tx: nat)
    requires Inv(s) && CanStep(s, Begin(tx))
    ensures Inv(StepOf(s, Begin(tx)))
  {
    var after := StepOf(s, Begin(tx));
    assert Touched(after.open[tx]) == {};
    forall org | org in after.tables.orgs ensures Spared(after, org) || Deleting(after, org) {
      SafetyKept(s, after, org);
    }
  }

  lemma StepKeepsInv(s: State, step: Step)
    requires Inv(s) && CanStep(s, step) && Guard(s, step)
    ensures Inv(StepOf(s, step))
  {
    match step
    case Begin(tx) => BeginKeepsInv(s, tx);
    case Drop(_, _, _) => StagingKeepsInv(s, step);
    case Demote(_, _, _) => StagingKeepsInv(s, step);
    case Delete(tx, org) => DeleteKeepsInv(s, tx, org);
    case Commit(tx) => CommitKeepsInv(s, tx);
    case Abort(tx) => AbortKeepsInv(s, tx);
    case Whole(act) => WholeKeepsInv(s, act);
  }

  /** Every run whose removals are guarded keeps an owner in every organization. */
  lemma {:induction false} GuardedRunsKeepOwners(s: State, steps: seq<Step>)
    requires Inv(s) && CanRun(s, steps) && AlwaysGuarded(s, steps)
    ensures Inv(Ran(s, steps))
    decreases |steps|
  {
    if steps != [] {
      StepKeepsInv(s, steps[0]);
      GuardedRunsKeepOwners(StepOf(s, steps[0]), steps[1..]);
    }
  }

  lemma StartHolds(t: Tables)
    requires Valid(t)
    ensures Inv(Start(t))
  {
    forall org | org in t.orgs ensures Spared(Start(t), org) {
      var owner := AnOwner(t, org);
      assert Untouched(Start(t), org, owner);
    }
  }

  // ── Without the guard the open removals orphan ────────────────────────────────────────────────

  predicate OnlyCommits(steps: seq<Step>) { forall step :: step in steps ==> step.Commit? }

  /** Every owner is in an open removal, and no open transaction deletes the organization. */
  ghost predicate AllLeaving(s: State, org: Org) {
    && org in s.tables.orgs
    && !Deleting(s, org)
    && (forall owner :: IsOwner(s.tables, org, owner) ==> !Untouched(s, org, owner))
  }

  lemma CommitKeepsLeaving(s: State, org: Org, tx: nat)
    requires AllLeaving(s, org) && tx in s.open
    ensures AllLeaving(StepOf(s, Commit(tx)), org)
  {
    var after := StepOf(s, Commit(tx));
    forall owner: User | IsOwner(after.tables, org, owner) ensures !Untouched(after, org, owner) {
      assert IsOwner(s.tables, org, owner);
      var other :| other in s.open && (org, owner) in Touched(s.open[other]);
      assert other in after.open;
    }
    forall other | other in after.open ensures org !in after.open[other].deletes {
      assert other in s.open;
    }
  }

  /** From any state in which all owners of an organization, however many, are in open removals,
      committing those is a run that leaves it ownerless. */
  lemma {:induction false} OpenRemovalsOrphan(s: State, org: Org) returns (commits: seq<Step>)
    requires AllLeaving(s, org)
    ensures OnlyCommits(commits) && CanRun(s, commits)
    ensures org in Ran(s, commits).tables.orgs && Owners(Ran(s, commits).tables, org) == {}
    decreases |s.open|
  {
    if s.open == map[] {
      commits := [];
      OwnersAreOwners(s.tables, org);
      assert forall user :: Untouched(s, org, user);
    } else {
      var tx :| tx in s.open;
      CommitKeepsLeaving(s, org, tx);
      var rest := OpenRemovalsOrphan(StepOf(s, Commit(tx)), org);
      commits := [Commit(tx)] + rest;
      assert commits[1..] == rest;
    }
  }

  lemma UnguardedAllLeave(s: State, step: Step)
    requires Keyed(s.tables) && CanStep(s, step) && !Guard(s, step)
    ensures AllLeaving(StepOf(s, step), step.org)
  {
    var after := StepOf(s, step);
    assert (step.org, step.user) in s.tables.roles;
    forall owner: User | IsOwner(after.tables, step.org, owner) ensures !Untouched(after, step.org, owner) {
      if owner == step.user {
        assert (step.org, owner) in Touched(after.open[step.tx]);
      } else {
        var tx :| tx in s.open && (step.org, owner) in Touched(s.open[tx]);
        assert (step.org, owner) in Touched(after.open[tx]);
      }
    }
  }

  // ── The exact condition ───────────────────────────────────────────────────────────────────────

  /** Whatever is open now commits, every organization has an owner. */
  ghost predicate OwnedWhateverCommits(s: State) {
    forall commits :: OnlyCommits(commits) && CanRun(s, commits) ==> Owned(Ran(s, commits).tables)
  }

  ghost predicate AlwaysOwned(s: State, steps: seq<Step>)
    decreases |steps|
  {
    OwnedWhateverCommits(s) && (steps == [] || AlwaysOwned(StepOf(s, steps[0]), steps[1..]))
  }

  lemma {:induction false} CommitsAreGuarded(s: State, commits: seq<Step>)
    requires OnlyCommits(commits)
    ensures AlwaysGuarded(s, commits)
    decreases |commits|
  {
    if commits != [] {
      assert commits[0] in commits;
      CommitsAreGuarded(StepOf(s, commits[0]), commits[1..]);
    }
  }

  lemma InvIsOwned(s: State)
    requires Inv(s)
    ensures OwnedWhateverCommits(s)
  {
    forall commits | OnlyCommits(commits) && CanRun(s, commits) ensures Owned(Ran(s, commits).tables) {
      CommitsAreGuarded(s, commits);
      GuardedRunsKeepOwners(s, commits);
    }
  }

  lemma {:induction false} OwnedIffGuardedFrom(s: State, steps: seq<Step>)
    requires Inv(s) && CanRun(s, steps)
    ensures AlwaysGuarded(s, steps) <==> AlwaysOwned(s, steps)
    decreases |steps|
  {
    InvIsOwned(s);
    if steps != [] {
      var next := StepOf(s, steps[0]);
      if Guard(s, steps[0]) {
        StepKeepsInv(s, steps[0]);
        OwnedIffGuardedFrom(next, steps[1..]);
      } else {
        UnguardedAllLeave(s, steps[0]);
        var commits := OpenRemovalsOrphan(next, steps[0].org);
        assert !OwnedWhateverCommits(next);
      }
    }
  }

  /** Every run of concurrent removals, demotions and account deletions, exactly: at each of its points
      every organization has an owner whatever then commits, if and only if each removal found, besides
      its own member, an owner in no open removal. */
  lemma OwnedIffGuarded(t: Tables, steps: seq<Step>)
    requires Valid(t) && CanRun(Start(t), steps)
    ensures AlwaysGuarded(Start(t), steps) <==> AlwaysOwned(Start(t), steps)
  {
    StartHolds(t);
    OwnedIffGuardedFrom(Start(t), steps);
  }

  // ── Runs that fail, and runs that do not ──────────────────────────────────────────────────────

  /** A removal is guarded when no other removal is open in its organization: what is committed and what
      its transaction sees then agree on the other owners. */
  lemma AloneIsGuarded(s: State, step: Step)
    requires Inv(s) && CanStep(s, step) && (step.Drop? || step.Demote?)
    requires forall tx, key :: tx in s.open && tx != step.tx && key in Touched(s.open[tx]) ==> key.0 != step.org
    ensures Guard(s, step)
  {
    var o := s.open[step.tx];
    var seen := View(s.tables, o);
    LastOwnerMeansSole(seen, step.org, step.user);
    OwnersAreOwners(seen, step.org);
    if IsOwner(seen, step.org, step.user) {
      var owner :| owner in Owners(seen, step.org) && owner != step.user;
      assert Untouched(s, step.org, owner);
    } else {
      AloneFromInv(s, step);
    }
  }

  /** A member who is no owner in its own transaction's view leaves the organization's safety alone. */
  lemma AloneFromInv(s: State, step: Step)
    requires Inv(s) && CanStep(s, step) && (step.Drop? || step.Demote?)
    requires !IsOwner(View(s.tables, s.open[step.tx]), step.org, step.user)
    ensures Guard(s, step)
  {
    var key := (step.org, step.user);
    var o := s.open[step.tx];
    assert key in s.tables.roles && step.org in s.tables.orgs && step.org !in o.deletes;
    assert !Deleting(s, step.org) by {
      assert Free(s, step.tx, step.org, step.user);
    }
    var owner :| IsOwner(s.tables, step.org, owner) && Untouched(s, step.org, owner);
    assert owner == step.user ==> key in Touched(o);
  }

  lemma RunCons(s: State, step: Step, rest: seq<Step>)
    requires CanStep(s, step) && CanRun(StepOf(s, step), rest)
    ensures CanRun(s, [step] + rest) && Ran(s, [step] + rest) == Ran(StepOf(s, step), rest)
  {
    assert ([step] + rest)[1..] == rest;
  }

  lemma StageOne(s: State, org: Org, user: User, tx: nat)
    requires Keyed(s.tables) && |Owners(s.tables, org)| >= 2 && user in Owners(s.tables, org) && tx !in s.open
    requires forall t :: t in s.open ==> (org, user) !in Touched(s.open[t]) && s.open[t].deletes == {}
    ensures CanStep(s, Begin(tx)) && CanStep(StepOf(s, Begin(tx)), Drop(tx, org, user))
    ensures StepOf(StepOf(s, Begin(tx)), Drop(tx, org, user)) == s.(open := s.open[tx := Open({(org, user)}, {}, {})])
  {
    OwnersAreOwners(s.tables, org);
    assert View(s.tables, Open({}, {}, {})) == s.tables by {
      assert View(s.tables, Open({}, {}, {})).roles == s.tables.roles;
    }
    LastOwnerMeansSole(s.tables, org, user);
    var staged := StepOf(StepOf(s, Begin(tx)), Drop(tx, org, user));
    assert staged.open[tx].drops == {(org, user)};
    assert staged.open == s.open[tx := Open({(org, user)}, {}, {})];
  }

  /** Any number of owners, each leaving in a transaction of its own. */
  lemma {:induction false} StageAll(s: State, org: Org, left: set<User>, tx: nat) returns (steps: seq<Step>)
    requires Keyed(s.tables) && |Owners(s.tables, org)| >= 2 && left <= Owners(s.tables, org)
    requires forall t :: t in s.open ==> t < tx && s.open[t].deletes == {}
    requires forall t, user :: t in s.open && user in left ==> (org, user) !in Touched(s.open[t])
    ensures CanRun(s, steps) && Ran(s, steps).tables == s.tables
    ensures var after := Ran(s, steps);
            && (forall t :: t in s.open ==> t in after.open && after.open[t] == s.open[t])
            && (forall t :: t in after.open ==> after.open[t].deletes == {})
            && (forall user :: user in left ==> !Untouched(after, org, user))
    decreases |left|
  {
    if left == {} {
      steps := [];
    } else {
      var user :| user in left;
      var begin, drop := Begin(tx), Drop(tx, org, user);
      var s1 := StepOf(s, begin);
      var s2 := StepOf(s1, drop);
      StageOne(s, org, user, tx);
      var rest := StageAll(s2, org, left - {user}, tx + 1);
      RunCons(s1, drop, rest);
      RunCons(s, begin, [drop] + rest);
      steps := [begin] + ([drop] + rest);
      var after := Ran(s2, rest);
      assert tx in s2.open && after.open[tx] == s2.open[tx];
    }
  }

  /** In every organization with two owners or more, all leaving at once pass both checks and leave it
      ownerless. */
  lemma RacingRemovalsOrphan(t: Tables, org: Org) returns (steps: seq<Step>, commits: seq<Step>)
    requires Valid(t) && org in t.orgs && |Owners(t, org)| >= 2
    ensures OnlyCommits(commits) && CanRun(Start(t), steps) && CanRun(Ran(Start(t), steps), commits)
    ensures var after := Ran(Ran(Start(t), steps), commits).tables; org in after.orgs && Owners(after, org) == {}
  {
    steps := StageAll(Start(t), org, Owners(t, org), 0);
    OwnersAreOwners(t, org);
    commits := OpenRemovalsOrphan(Ran(Start(t), steps), org);
  }

  // ── An account deletion is such a transaction ─────────────────────────────────────────────────

  ghost function Drops(t: Tables, user: User, done: set<Org>): set<Row> {
    set org | org in done && Owners(t, org) != {user} :: (org, user)
  }

  lemma ViewOfForgetting(t: Tables, user: User, done: set<Org>, gone: set<Org>)
    ensures View(t, Open(Drops(t, user, done), {}, gone)) == Cut(Dropped(t, user, done), gone)
  {
    var left, right := View(t, Open(Drops(t, user, done), {}, gone)), Cut(Dropped(t, user, done), gone);
    forall key: Row ensures key in left.roles <==> key in right.roles {
      assert key in Drops(t, user, done) <==> key.1 == user && key.0 in done && Owners(t, key.0) != {user};
    }
    assert left.roles == right.roles;
  }

  lemma ForgetDropStep(t: Tables, user: User, tx: nat, done: set<Org>, org: Org)
    requires Keyed(t) && org !in done && org in OrgsOf(t, user) && Owners(t, org) != {user}
    ensures var s := State(t, map[tx := Open(Drops(t, user, done), {}, {})]);
            && CanStep(s, Drop(tx, org, user))
            && StepOf(s, Drop(tx, org, user)) == State(t, map[tx := Open(Drops(t, user, done + {org}), {}, {})])
  {
    ViewOfForgetting(t, user, done, {});
    CutNone(Dropped(t, user, done));
    DropStep(t, user, done, org);
    LastOwnerMeansSole(Dropped(t, user, done), org, user);
    assert Drops(t, user, done + {org}) == Drops(t, user, done) + {(org, user)};
  }

  /** The first loop, one membership at a time: dropped unless its owner is the only one. */
  lemma {:induction false} ForgetDrops(
    t: Tables, user: User, tx: nat, done: set<Org>, left: set<Org>) returns (steps: seq<Step>)
    requires Keyed(t) && done !! left && left <= OrgsOf(t, user)
    ensures var s := State(t, map[tx := Open(Drops(t, user, done), {}, {})]);
            CanRun(s, steps) && Ran(s, steps) == State(t, map[tx := Open(Drops(t, user, done + left), {}, {})])
    decreases |left|
  {
    var s := State(t, map[tx := Open(Drops(t, user, done), {}, {})]);
    if left == {} {
      steps := [];
      assert done + left == done;
    } else {
      var org :| org in left;
      var rest := ForgetDrops(t, user, tx, done + {org}, left - {org});
      assert done + {org} + (left - {org}) == done + left;
      if Owners(t, org) == {user} {
        assert Drops(t, user, done + {org}) == Drops(t, user, done);
        steps := rest;
      } else {
        ForgetDropStep(t, user, tx, done, org);
        RunCons(s, Drop(tx, org, user), rest);
        steps := [Drop(tx, org, user)] + rest;
      }
    }
  }

  lemma ForgetDeleteStep(t: Tables, tx: nat, drops: set<Row>, gone: set<Org>, org: Org)
    requires org in t.orgs && org !in gone
    ensures var s := State(t, map[tx := Open(drops, {}, gone)]);
            && CanStep(s, Delete(tx, org))
            && StepOf(s, Delete(tx, org)) == State(t, map[tx := Open(drops, {}, gone + {org})])
  {
  }

  lemma {:induction false} ForgetDeletes(t: Tables, tx: nat, drops: set<Row>, gone: set<Org>, left: set<Org>)
    returns (steps: seq<Step>)
    requires left <= t.orgs && gone !! left
    ensures var s := State(t, map[tx := Open(drops, {}, gone)]);
            CanRun(s, steps) && Ran(s, steps) == State(t, map[tx := Open(drops, {}, gone + left)])
    decreases |left|
  {
    if left == {} {
      steps := [];
      assert gone + left == gone;
    } else {
      var s := State(t, map[tx := Open(drops, {}, gone)]);
      var org :| org in left;
      var delete := Delete(tx, org);
      var rest := ForgetDeletes(t, tx, drops, gone + {org}, left - {org});
      assert gone + {org} + (left - {org}) == gone + left;
      ForgetDeleteStep(t, tx, drops, gone, org);
      RunCons(s, delete, rest);
      steps := [delete] + rest;
    }
  }

  lemma {:induction false} RunsInTurn(s: State, first: seq<Step>, second: seq<Step>)
    requires CanRun(s, first) && CanRun(Ran(s, first), second)
    ensures CanRun(s, first + second) && Ran(s, first + second) == Ran(Ran(s, first), second)
    decreases |first|
  {
    if first == [] {
      assert first + second == second;
    } else {
      RunsInTurn(StepOf(s, first[0]), first[1..], second);
      assert (first + second)[1..] == first[1..] + second;
    }
  }

  /** Uninterrupted, an account deletion is a run of this machine, and leaves the tables `ForgetUser` does. */
  lemma ForgetIsATransaction(t: Tables, user: User, tx: nat) returns (steps: seq<Step>)
    requires Keyed(t)
    ensures CanRun(Start(t), steps) && Ran(Start(t), steps) == Start(Forgotten(t, user))
  {
    var orgs := OrgsOf(t, user);
    var gone := set org | org in orgs && Doomed(t, org, user);
    var begun := State(t, map[tx := Open({}, {}, {})]);
    assert Drops(t, user, {}) == {};
    var drops := ForgetDrops(t, user, tx, {}, orgs);
    assert {} + orgs == orgs;
    var dropped := Open(Drops(t, user, orgs), {}, {});
    var deletes := ForgetDeletes(t, tx, dropped.drops, {}, gone);
    assert {} + gone == gone;
    RunsInTurn(begun, drops, deletes);
    var staged := State(t, map[tx := Open(dropped.drops, {}, gone)]);
    ViewOfForgetting(t, user, orgs, gone);
    CutIsForgotten(t, user, orgs);
    assert StepOf(staged, Commit(tx)) == Start(Forgotten(t, user));
    RunsInTurn(begun, drops + deletes, [Commit(tx)]);
    assert StepOf(Start(t), Begin(tx)) == begun;
    steps := [Begin(tx)] + (drops + deletes + [Commit(tx)]);
    assert steps[1..] == drops + deletes + [Commit(tx)];
  }
}
