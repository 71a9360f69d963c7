/** Workspace roles: role updates, leaving, removals and invites
    (server/internal/handler/workspace.go, server/internal/workspace).

    Every request first reads roles and decides, then writes. Decide and Write are
    kept apart so that other requests can come in between. */
module Owners {
  import opened Common

  type Request = nat

  datatype Role = Owner | Admin | Member | Guest
  datatype Permission = Everyone | Members | Admins

  type Roles = map<User, Role>

  function Rank(r: Role): nat {
    match r
    case Owner => 4
    case Admin => 3
    case Member => 2
    case Guest => 1
  }

  predicate CanManage(r: Role) {
    r == Owner || r == Admin
  }

  predicate HasPermission(r: Role, level: Permission) {
    match level
    case Everyone => true
    case Members => r != Guest
    case Admins => CanManage(r)
  }

  function OwnersOf(m: Roles): set<User> {
    set u | u in m && m[u] == Owner
  }

  ghost predicate HasOwner(m: Roles) {
    exists u :: u in m && m[u] == Owner
  }

  /** An unrecognised role string in a request is None. */
  datatype Op =
    | UpdateRole(actor: User, target: User, role: Option<Role>)
    | Leave(user: User)
    | Remove(actor: User, target: User)
    | Accept(user: User, inviteRole: Role)

  /** The write a request has decided on. A counted write re-counts the owners in
      its own transaction. */
  datatype Write =
    | Nothing
    | SetRole(target: User, role: Role, counted: bool)
    | Drop(target: User, counted: bool)
    | Insert(user: User, role: Role)

  function Decide(m: Roles, op: Op): Write {
    match op
    case UpdateRole(actor, target, role) =>
      if actor !in m || !CanManage(m[actor]) || role.None? then Nothing
      else if role.value == Owner && m[actor] != Owner then Nothing
      else if m[actor] == Admin && role.value == Admin then Nothing
      else if target !in m || (m[target] == Owner && actor != target) then Nothing
      else SetRole(target, role.value, actor == target && m[target] == Owner && role.value != Owner)
    case Leave(user) => if user !in m then Nothing else Drop(user, m[user] == Owner)
    case Remove(actor, target) =>
      if actor !in m || target !in m || (actor != target && !CanManage(m[actor])) then Nothing
      else if actor != target && Rank(m[actor]) <= Rank(m[target]) then Nothing
      else if m[target] == Owner && |OwnersOf(m)| <= 1 then Nothing
      else Drop(target, false)
    case Accept(user, inviteRole) => if inviteRole == Owner then Nothing else Insert(user, inviteRole)
  }

  function Perform(m: Roles, w: Write): Roles {
    match w
    case Nothing => m
    case SetRole(target, role, counted) =>
      if (counted && |OwnersOf(m)| <= 1) || target !in m then m else m[target := role]
    case Drop(target, counted) => if counted && |OwnersOf(m)| <= 1 then m else m - {target}
    case Insert(user, role) => if user in m then m else m[user := role]
  }

  /** A request that nothing interrupts. */
  function Atomic(m: Roles, op: Op): Roles {
    Perform(m, Decide(m, op))
  }

  // ---------- requests that interleave ----------

  datatype State = State(roles: Roles, pending: map<Request, Write>)

  /** A request may read in one moment and decide, or read in several statements and so
      have decided on any write. */
  datatype Step = Begin(r: Request, op: Op) | BeginSplit(r: Request, write: Write) | Commit(r: Request)

  function Next(s: State, step: Step): State {
    match step
    case Begin(r, op) => s.(pending := s.pending[r := Decide(s.roles, op)])
    case BeginSplit(r, w) => s.(pending := s.pending[r := w])
    case Commit(r) => if r in s.pending then State(Perform(s.roles, s.pending[r]), s.pending - {r}) else s
  }

  function Run(s: State, steps: seq<Step>): State
    decreases |steps|
  {
    if steps == [] then s else Run(Next(s, steps[0]), steps[1..])
  }

  /** What the request read about its target is still so: the row it is about to
      demote or delete without counting is not an owner's, or is not the last. */
  predicate Fresh(m: Roles, w: Write) {
    match w
    case SetRole(target, role, counted) => counted || role == Owner || target !in OwnersOf(m) || |OwnersOf(m)| >= 2
    case Drop(target, counted) => counted || target !in OwnersOf(m) || |OwnersOf(m)| >= 2
    case _ => true
  }

  predicate FreshStep(s: State, step: Step) {
    step.Commit? && step.r in s.pending ==> Fresh(s.roles, s.pending[step.r])
  }

  predicate AllFresh(s: State, steps: seq<Step>)
    decreases |steps|
  {
    steps == [] || (FreshStep(s, steps[0]) && AllFresh(Next(s, steps[0]), steps[1..]))
  }

  /** There is an owner now and after every further step. */
  ghost predicate AlwaysOwned(s: State, steps: seq<Step>)
    decreases |steps|
  {
    HasOwner(s.roles) && (steps == [] || AlwaysOwned(Next(s, steps[0]), steps[1..]))
  }

  lemma TwoOwners(m: Roles, u: User)
    requires u in OwnersOf(m)
    ensures |OwnersOf(m)| >= 2 <==> exists v :: v != u && v in OwnersOf(m)
  {
    var rest := OwnersOf(m) - {u};
    if |OwnersOf(m)| >= 2 {
      assert |rest| >= 1;
      var v :| v in rest;
    }
    if v :| v != u && v in OwnersOf(m) {
      assert {u, v} <= OwnersOf(m);
      SubsetSize({u, v}, OwnersOf(m));
    }
  }

  lemma {:induction false} SubsetSize(a: set<User>, b: set<User>)
    requires a <= b
    ensures |a| <= |b|
  {
    if a == {} {
    } else {
      var x :| x in a;
      SubsetSize(a - {x}, b - {x});
    }
  }

  /** One write keeps an owner exactly when it is fresh. */
  lemma WriteKeepsOwnerIffFresh(m: Roles, w: Write)
    requires HasOwner(m)
    ensures HasOwner(Perform(m, w)) <==> Fresh(m, w)
  {
    var after := Perform(m, w);
    var o :| o in m && m[o] == Owner;
    assert o in OwnersOf(m);
    if (w.SetRole? || w.Drop?) && w.target in OwnersOf(m) {
      TwoOwners(m, w.target);
      if v :| v != w.target && v in OwnersOf(m) {
        assert v in after && after[v] == Owner;
      }
      if v :| v in after && after[v] == Owner {
        assert v != w.target ==> v in OwnersOf(m);
      }
    } else {
      assert o in after && after[o] == Owner;
    }
    if after == m {
      assert o in after && after[o] == Owner;
    } else if w.SetRole? && w.role == Owner {
      assert w.target in after && after[w.target] == Owner;
    }
  }

  /** Who is a member after a write, and in which role: only an accepted invite makes one,
      only a removal or departure ends it, and only a role update changes the role. The
      last two give way when they count and find a single owner. */
  lemma RolesAfter(m: Roles, w: Write, u: User)
    ensures var stopped := (w.SetRole? || w.Drop?) && w.counted && |OwnersOf(m)| <= 1;
            (u in Perform(m, w) <==>
               (w.Insert? && w.user == u) || (u in m && !(w.Drop? && w.target == u && !stopped))) &&
            (u in Perform(m, w) ==>
               Perform(m, w)[u] == if u !in m then w.role
                                   else if w.SetRole? && w.target == u && !stopped then w.role
                                   else m[u])
  {}

  lemma DecidedNowIsFresh(m: Roles, op: Op)
    ensures Fresh(m, Decide(m, op))
  {}

  /** Requests that are not interrupted never leave a workspace without an owner. */
  lemma AtomicKeepsOwner(m: Roles, op: Op)
    requires HasOwner(m)
    ensures HasOwner(Atomic(m, op))
  {
    DecidedNowIsFresh(m, op);
    WriteKeepsOwnerIffFresh(m, Decide(m, op));
  }

  function AtomicRun(m: Roles, ops: seq<Op>): Roles
    decreases |ops|
  {
    if ops == [] then m else AtomicRun(Atomic(m, ops[0]), ops[1..])
  }

  /** A workspace created with an owner always has one. */
  lemma {:induction false} AtomicRunKeepsOwner(m: Roles, ops: seq<Op>)
    requires HasOwner(m)
    ensures HasOwner(AtomicRun(m, ops))
    decreases |ops|
  {
    if ops == [] {
    } else {
      AtomicKeepsOwner(m, ops[0]);
      AtomicRunKeepsOwner(Atomic(m, ops[0]), ops[1..]);
    }
  }

  predicate MakesOwner(m: Roles, op: Op, u: User) {
    op.UpdateRole? && op.target == u && op.role == Some(Owner) && op.actor in OwnersOf(m)
  }

  /** Uninterrupted, only an owner's own request makes somebody an owner. */
  lemma OnlyOwnersMakeOwners(m: Roles, op: Op, u: User)
    requires u in OwnersOf(Atomic(m, op)) && u !in OwnersOf(m)
    ensures MakesOwner(m, op, u)
  {}

  /** Over every run of uninterrupted requests: whoever became an owner was made one by
      somebody who was an owner at that moment. */
  lemma {:induction false} OwnersComeFromOwners(m: Roles, ops: seq<Op>, u: User)
    requires u !in OwnersOf(m) && u in OwnersOf(AtomicRun(m, ops))
    ensures exists i :: 0 <= i < |ops| && MakesOwner(AtomicRun(m, ops[..i]), ops[i], u)
    decreases |ops|
  {
    var m1 := Atomic(m, ops[0]);
    if u in OwnersOf(m1) {
      OnlyOwnersMakeOwners(m, ops[0], u);
      assert AtomicRun(m, ops[..0]) == m;
      assert MakesOwner(AtomicRun(m, ops[..0]), ops[0], u);
    } else {
      OwnersComeFromOwners(m1, ops[1..], u);
      var j :| 0 <= j < |ops[1..]| && MakesOwner(AtomicRun(m1, ops[1..][..j]), ops[1..][j], u);
      assert ops[..j + 1][1..] == ops[1..][..j];
      assert MakesOwner(AtomicRun(m, ops[..j + 1]), ops[j + 1], u);
    }
  }

  /** A request by the user about the user's own role. */
  predicate OwnRequest(op: Op, u: User) {
    match op
    case UpdateRole(actor, target, _) => actor == u && target == u
    case Leave(user) => user == u
    case Remove(actor, target) => actor == u && target == u
    case Accept(_, _) => false
  }

  /** Uninterrupted, nobody else can demote or remove an owner, and the last one stays. */
  lemma OwnersAreUntouchable(m: Roles, op: Op, u: User)
    requires u in OwnersOf(m) && u !in OwnersOf(Atomic(m, op))
    ensures OwnRequest(op, u) && |OwnersOf(m)| >= 2
  {
    DecidedNowIsFresh(m, op);
  }

  // ---------- over interleaved runs ----------

  lemma StepKeepsOwnerIffFresh(s: State, step: Step)
    requires HasOwner(s.roles)
    ensures HasOwner(Next(s, step).roles) <==> FreshStep(s, step)
  {
    if step.Commit? && step.r in s.pending {
      WriteKeepsOwnerIffFresh(s.roles, s.pending[step.r]);
    }
  }

  /** Over every interleaved run there is an owner at every moment exactly when each
      write is fresh at the moment it is made. */
  lemma {:induction false} AlwaysOwnedIffAllFresh(s: State, steps: seq<Step>)
    requires HasOwner(s.roles)
    ensures AlwaysOwned(s, steps) <==> AllFresh(s, steps)
    decreases |steps|
  {
    if steps == [] {
    } else {
      StepKeepsOwnerIffFresh(s, steps[0]);
      if FreshStep(s, steps[0]) {
        AlwaysOwnedIffAllFresh(Next(s, steps[0]), steps[1..]);
      } else {
        assert !HasOwner(Next(s, steps[0]).roles);
      }
    }
  }

  predicate NoSplitReads(steps: seq<Step>) {
    forall i :: 0 <= i < |steps| ==> !steps[i].BeginSplit?
  }

  predicate PromotesTo(w: Write, u: User) {
    (w.SetRole? && w.target == u && w.role == Owner) || (w.Insert? && w.user == u && w.role == Owner)
  }

  lemma OnlyPromotionsPromote(m: Roles, w: Write, u: User)
    requires u !in OwnersOf(m) && u in OwnersOf(Perform(m, w))
    ensures PromotesTo(w, u)
  {}

  /** Over every interleaved run: whoever became an owner was made one by a request
      that began while its actor was an owner. */
  lemma {:induction false} NewOwnersComeFromOwners(s: State, steps: seq<Step>, u: User)
    requires u !in OwnersOf(s.roles) && u in OwnersOf(Run(s, steps).roles)
    requires NoSplitReads(steps) && forall r :: r in s.pending ==> !PromotesTo(s.pending[r], u)
    ensures exists i :: 0 <= i < |steps| && steps[i].Begin? && MakesOwner(Run(s, steps[..i]).roles, steps[i].op, u)
    decreases |steps|
  {
    var t := Next(s, steps[0]);
    if steps[0].Begin? && PromotesTo(Decide(s.roles, steps[0].op), u) {
      assert Run(s, steps[..0]) == s;
      assert MakesOwner(Run(s, steps[..0]).roles, steps[0].op, u);
    } else {
      if steps[0].Commit? && steps[0].r in s.pending && u in OwnersOf(t.roles) {
        OnlyPromotionsPromote(s.roles, s.pending[steps[0].r], u);
      }
      NewOwnersComeFromOwners(t, steps[1..], u);
      var j :| 0 <= j < |steps[1..]| && steps[1..][j].Begin? &&
               MakesOwner(Run(t, steps[1..][..j]).roles, steps[1..][j].op, u);
      assert steps[..j + 1][1..] == steps[1..][..j];
      assert MakesOwner(Run(s, steps[..j + 1]).roles, steps[j + 1].op, u);
    }
  }

  /** The write would take the owner role from u. */
  predicate Threatens(w: Write, u: User) {
    (w.SetRole? && w.target == u && w.role != Owner) || (w.Drop? && w.target == u)
  }

  lemma WriteTakesOwnerIff(m: Roles, w: Write, u: User)
    requires u in OwnersOf(m)
    ensures u !in OwnersOf(Perform(m, w)) <==> Threatens(w, u) && (w.counted ==> |OwnersOf(m)| >= 2)
  {}

  /** Somebody else's request, decided on the roles m0, is directed against u: u was no
      owner then, and the actor was allowed to demote or remove such a member. */
  predicate OutrankedThen(m0: Roles, op: Op, u: User) {
    u in m0 && m0[u] != Owner &&
    match op
    case UpdateRole(actor, target, role) =>
      target == u && actor in m0 && CanManage(m0[actor]) && role.Some? && role.value != Owner &&
      !(m0[actor] == Admin && role.value == Admin)
    case Leave(user) => user == u
    case Remove(actor, target) =>
      target == u && actor in m0 && (actor == u || (CanManage(m0[actor]) && Rank(m0[actor]) > Rank(m0[u])))
    case Accept(_, _) => false
  }

  /** u, an owner then already, gave the role up while there was another one: at the
      time of the write, or for self-removal at the time of the decision. */
  predicate GivesUp(m0: Roles, m: Roles, op: Op, u: User) {
    u in m0 && m0[u] == Owner &&
    match op
    case UpdateRole(actor, target, role) =>
      actor == u && target == u && role.Some? && role.value != Owner && |OwnersOf(m)| >= 2
    case Leave(user) => user == u && |OwnersOf(m)| >= 2
    case Remove(actor, target) => actor == u && target == u && |OwnersOf(m0)| >= 2
    case Accept(_, _) => false
  }

  /** A request decided on m0 and written on m takes the role of an owner u exactly when
      it was directed against u before u became an owner, or u gives it up. */
  lemma StaleRequestTakesOwnerIff(m0: Roles, m: Roles, op: Op, u: User)
    requires u in OwnersOf(m)
    ensures u !in OwnersOf(Perform(m, Decide(m0, op))) <==> OutrankedThen(m0, op, u) || GivesUp(m0, m, op, u)
  {
    WriteTakesOwnerIff(m, Decide(m0, op), u);
  }

  /** Over every interleaved run: an owner against whom nothing is pending loses the
      role only if the owner asked for it during the run. */
  lemma {:induction false} OnlyOwnRequestsTakeIt(s: State, steps: seq<Step>, u: User)
    requires u in OwnersOf(s.roles) && u !in OwnersOf(Run(s, steps).roles)
    requires NoSplitReads(steps) && forall r :: r in s.pending ==> !Threatens(s.pending[r], u)
    ensures exists i :: 0 <= i < |steps| && steps[i].Begin? && OwnRequest(steps[i].op, u)
    decreases |steps|
  {
    if steps[0].Begin? && OwnRequest(steps[0].op, u) {
    } else {
      if steps[0].Commit? && steps[0].r in s.pending {
        WriteTakesOwnerIff(s.roles, s.pending[steps[0].r], u);
      }
      OnlyOwnRequestsTakeIt(Next(s, steps[0]), steps[1..], u);
      var j :| 0 <= j < |steps[1..]| && steps[1..][j].Begin? && OwnRequest(steps[1..][j].op, u);
      assert steps[j + 1] == steps[1..][j];
    }
  }

  /** A removal that began before its target became an owner takes one out: b, an admin,
      starts to remove c; a makes c an owner; then the removal is written. */
  lemma StaleRemovalTakesOwner(a: User, b: User, c: User)
    requires a != b && b != c && a != c
    ensures var s := State(map[a := Owner, b := Admin, c := Member], map[]);
            var promoted := Run(s, [Begin(0, Remove(b, c)), Begin(1, UpdateRole(a, c, Some(Owner))), Commit(1)]);
            c in OwnersOf(promoted.roles) && c !in OwnersOf(Run(promoted, [Commit(0)]).roles)
  {
    var s := State(map[a := Owner, b := Admin, c := Member], map[]);
    var first, second := Begin(0, Remove(b, c)), Begin(1, UpdateRole(a, c, Some(Owner)));
    var s2 := s.(pending := map[0 := Drop(c, false), 1 := SetRole(c, Owner, false)]);
    var promoted := State(map[a := Owner, b := Admin, c := Owner], map[0 := Drop(c, false)]);
    assert Next(Next(s, first), second) == s2;
    assert Next(s2, Commit(1)) == promoted;
    RunThree(s, first, second, Commit(1), []);
    assert [first, second, Commit(1)] + [] == [first, second, Commit(1)];
    assert [Commit(0)][1..] == [];
    assert Run(promoted, [Commit(0)]) == Next(promoted, Commit(0));
  }

  lemma AdminIsPromotedWhileLeaving(a: User, b: User)
    requires a != b
    ensures var s := State(map[a := Owner, b := Admin], map[]);
            Next(Next(Next(s, Begin(0, Leave(b))), Begin(1, UpdateRole(a, b, Some(Owner)))), Commit(1))
            == State(map[a := Owner, b := Owner], map[0 := Drop(b, false)])
  {
    var s := State(map[a := Owner, b := Admin], map[]);
    var s2 := s.(pending := map[0 := Drop(b, false), 1 := SetRole(b, Owner, false)]);
    assert Next(Next(s, Begin(0, Leave(b))), Begin(1, UpdateRole(a, b, Some(Owner)))) == s2;
    assert s2.pending - {1} == map[0 := Drop(b, false)];
    assert s2.roles[b := Owner] == map[a := Owner, b := Owner];
  }

  lemma BothLeave(a: User, b: User)
    requires a != b
    ensures var s := State(map[a := Owner, b := Owner], map[0 := Drop(b, false)]);
            Next(Next(Next(s, Begin(2, Leave(a))), Commit(2)), Commit(0)).roles == map[]
  {
    var s := State(map[a := Owner, b := Owner], map[0 := Drop(b, false)]);
    assert OwnersOf(s.roles) == {a, b};
    var t := Next(Next(s, Begin(2, Leave(a))), Commit(2));
    assert t.roles == map[b := Owner] && t.pending[0] == Drop(b, false);
  }

  /** Without freshness the last owner can go: b, an admin, starts to leave; a makes
      b an owner and leaves; b's departure, decided when b was an admin, is not
      counted. */
  lemma StaleLeaveLosesLastOwner(a: User, b: User)
    requires a != b
    ensures var s := State(map[a := Owner, b := Admin], map[]);
            var first := [Begin(0, Leave(b)), Begin(1, UpdateRole(a, b, Some(Owner))), Commit(1)];
            var last := [Begin(2, Leave(a)), Commit(2), Commit(0)];
            !HasOwner(Run(s, first + last).roles)
  {
    var s, t := State(map[a := Owner, b := Admin], map[]), State(map[a := Owner, b := Owner], map[0 := Drop(b, false)]);
    var last := [Begin(2, Leave(a)), Commit(2), Commit(0)];
    AdminIsPromotedWhileLeaving(a, b);
    BothLeave(a, b);
    RunThree(s, Begin(0, Leave(b)), Begin(1, UpdateRole(a, b, Some(Owner))), Commit(1), last);
    RunThree(t, last[0], last[1], last[2], []);
    assert last + [] == last;
  }

  /** Two owners who remove themselves at the same time both pass the count. */
  lemma TwoSelfRemovalsLoseBothOwners(a: User, b: User)
    requires a != b
    ensures var s := State(map[a := Owner, b := Owner], map[]);
            var steps := [Begin(0, Remove(a, a)), Begin(1, Remove(b, b)), Commit(0), Commit(1)];
            !HasOwner(Run(s, steps).roles)
  {
    var s := State(map[a := Owner, b := Owner], map[]);
    assert OwnersOf(s.roles) == {a, b};
    var s3 := Next(Next(Next(s, Begin(0, Remove(a, a))), Begin(1, Remove(b, b))), Commit(0));
    assert s3.roles == map[b := Owner];
    RunThree(s, Begin(0, Remove(a, a)), Begin(1, Remove(b, b)), Commit(0), [Commit(1)]);
    assert Next(s3, Commit(1)).roles == map[];
    assert Run(s3, [Commit(1)]) == Next(s3, Commit(1));
    assert [Begin(0, Remove(a, a)), Begin(1, Remove(b, b)), Commit(0)] + [Commit(1)]
        == [Begin(0, Remove(a, a)), Begin(1, Remove(b, b)), Commit(0), Commit(1)];
  }

  lemma RunThree(s: State, a: Step, b: Step, c: Step, rest: seq<Step>)
    ensures Run(s, [a, b, c] + rest) == Run(Next(Next(Next(s, a), b), c), rest)
  {
    assert ([a, b, c] + rest)[1..] == [b, c] + rest;
    assert ([b, c] + rest)[1..] == [c] + rest;
    assert ([c] + rest)[1..] == rest;
    assert Run(s, [a, b, c] + rest) == Run(Next(s, a), [b, c] + rest);
    assert Run(Next(s, a), [b, c] + rest) == Run(Next(Next(s, a), b), [c] + rest);
  }

  // ---------- the request handlers ----------

  /** There is another owner besides any one. */
  ghost predicate TwoOwnersIn(m: Roles) {
    exists u, v :: u in m && v in m && u != v && m[u] == Owner && m[v] == Owner
  }

  lemma CountingTwo(m: Roles)
    ensures TwoOwnersIn(m) <==> |OwnersOf(m)| >= 2
  {
    if u, v :| u in m && v in m && u != v && m[u] == Owner && m[v] == Owner {
      SubsetSize({u, v}, OwnersOf(m));
    }
    if |OwnersOf(m)| >= 2 {
      var u :| u in OwnersOf(m);
      assert OwnersOf(m) == OwnersOf(m) - {u} + {u};
      var v :| v in OwnersOf(m) - {u};
    }
  }

  /** Who may give whom which role: owners any role to anybody but another owner, admins
      the roles below their own, and the last owner no other role to themselves. */
  ghost predicate MayAssign(m: Roles, actor: User, target: User, role: Option<Role>) {
    actor in m && target in m && role.Some? &&
    (m[actor] == Owner || (m[actor] == Admin && (role.value == Member || role.value == Guest))) &&
    (m[target] == Owner ==> actor == target && (role.value == Owner || TwoOwnersIn(m)))
  }

  /** Who may remove whom: oneself, unless one is the last owner, and those below. */
  ghost predicate MayRemove(m: Roles, actor: User, target: User) {
    actor in m && target in m &&
    if actor == target then m[target] == Owner ==> TwoOwnersIn(m)
    else (m[actor] == Owner && m[target] != Owner) ||
         (m[actor] == Admin && (m[target] == Member || m[target] == Guest))
  }

  class Workspace {
    var roles: Roles
    var invites: seq<Role>

    ghost predicate Valid()
      reads this
    {
      HasOwner(roles) && Owner !in invites
    }

    constructor (creator: User)
      ensures Valid() && OwnersOf(roles) == {creator} && invites == []
    {
      roles := map[creator := Owner];
      invites := [];
      new;
      assert creator in roles && roles[creator] == Owner;
    }

    method CountOwners() returns (n: nat)
      ensures n == |OwnersOf(roles)|
    {
      var left := roles.Keys;
      ghost var seen: set<User> := {};
      n := 0;
      while left != {}
        invariant left <= roles.Keys
        invariant seen == set u | u in roles && u !in left && roles[u] == Owner
        invariant n == |seen|
        decreases |left|
      {
        var u :| u in left;
        left := left - {u};
        if roles[u] == Owner {
          n := n + 1;
          seen := seen + {u};
        }
      }
      assert seen == OwnersOf(roles);
    }

    method UpdateMemberRole(actor: User, target: User, role: Option<Role>) returns (ok: bool)
      requires Valid()
      modifies this`roles
      ensures Valid() && roles == Atomic(old(roles), UpdateRole(actor, target, role))
      ensures OwnersOf(roles) - OwnersOf(old(roles)) != {} ==> actor in OwnersOf(old(roles))
      ensures ok <==> MayAssign(old(roles), actor, target, role)
      ensures roles == if ok then old(roles)[target := role.value] else old(roles)
    {
      ghost var op := UpdateRole(actor, target, role);
      AtomicKeepsOwner(roles, op);
      CountingTwo(roles);
      ok := false;
      if actor !in roles || !CanManage(roles[actor]) || role.None? {
        return;
      }
      if role.value == Owner && roles[actor] != Owner {
        return;
      }
      if roles[actor] == Admin && role.value == Admin {
        return;
      }
      if target !in roles {
        return;
      }
      var isSelf := actor == target;
      if roles[target] == Owner && !isSelf {
        return;
      }
      if isSelf && roles[target] == Owner && role.value != Owner {
        var ownerCount := CountOwners();
        if ownerCount <= 1 {
          return;
        }
      }
      roles := roles[target := role.value];
      ok := true;
    }

    method LeaveWorkspace(user: User) returns (ok: bool)
      requires Valid()
      modifies this`roles
      ensures Valid() && roles == Atomic(old(roles), Leave(user))
      ensures ok <==> user in old(roles) && user !in roles
      ensures ok <==> user in old(roles) && (old(roles)[user] == Owner ==> TwoOwnersIn(old(roles)))
      ensures roles == if ok then old(roles) - {user} else old(roles)
    {
      AtomicKeepsOwner(roles, Leave(user));
      CountingTwo(roles);
      if user !in roles {
        return false;
      }
      if roles[user] == Owner {
        var ownerCount := CountOwners();
        if ownerCount <= 1 {
          return false;
        }
      }
      roles := roles - {user};
      ok := true;
    }

    method RemoveMember(actor: User, target: User) returns (ok: bool)
      requires Valid()
      modifies this`roles
      ensures Valid() && roles == Atomic(old(roles), Remove(actor, target))
      ensures ok <==> target in old(roles) && target !in roles
      ensures ok <==> MayRemove(old(roles), actor, target)
      ensures roles == if ok then old(roles) - {target} else old(roles)
    {
      AtomicKeepsOwner(roles, Remove(actor, target));
      CountingTwo(roles);
      if actor !in roles {
        return false;
      }
      if target != actor && !CanManage(roles[actor]) {
        return false;
      }
      if target != actor {
        if target !in roles || Rank(roles[actor]) <= Rank(roles[target]) {
          return false;
        }
      }
      if roles[target] == Owner {
        var count := CountOwners();
        if count <= 1 {
          return false;
        }
      }
      roles := roles - {target};
      ok := true;
    }

    /** Invites never carry the owner role, and carry admin only from those who
        manage members. */
    method CreateInvite(actor: User, requested: Option<Role>, level: Permission) returns (code: Option<nat>)
      requires Valid()
      modifies this`invites
      ensures Valid()
      ensures code.None? ==> invites == old(invites)
      ensures code.Some? ==> code.value == |old(invites)| && |invites| == |old(invites)| + 1 &&
                             invites[..|old(invites)|] == old(invites)
      ensures code.Some? ==> actor in roles && HasPermission(roles[actor], level) &&
                             Rank(invites[code.value]) <= 3 &&
                             (invites[code.value] == Admin ==> CanManage(roles[actor]))
      ensures var role := if requested.Some? && requested.value != Owner then requested.value else Member;
              (code.Some? <==>
                 actor in roles && (level == Members ==> roles[actor] != Guest) &&
                 (level == Admins || role == Admin ==> roles[actor] == Owner || roles[actor] == Admin)) &&
              (code.Some? ==> invites[code.value] == role)
    {
      if actor !in roles || !HasPermission(roles[actor], level) {
        return None;
      }
      var role := Member;
      if requested.Some? && requested.value != Owner {
        role := requested.value;
      }
      if role == Admin && !CanManage(roles[actor]) {
        return None;
      }
      code := Some(|invites|);
      invites := invites + [role];
    }

    method AcceptInvite(user: User, code: nat) returns (ok: bool)
      requires Valid()
      modifies this`roles
      ensures Valid()
      ensures roles == if code < |invites| then Atomic(old(roles), Accept(user, invites[code])) else old(roles)
      ensures ok <==> code < |invites|
      ensures roles == if ok && user !in old(roles) then old(roles)[user := invites[code]] else old(roles)
      ensures OwnersOf(roles) == OwnersOf(old(roles))
    {
      if code >= |invites| {
        return false;
      }
      AtomicKeepsOwner(roles, Accept(user, invites[code]));
      assert invites[code] in invites;
      if user !in roles {
        roles := roles[user := invites[code]];
      }
      ok := true;
    }
  }
}
