/** CreateDM (server/internal/channel/repository.go, server/internal/handler/channel.go):
    the participant hash as an index of DMs by member set, and what keeps a member
    set from having two DMs. */
module DirectMessages {
  import opened Common
  import opened DmHash
  import opened Channels

  /** Repository.CreateDM, given what its lookup found: the table afterwards and the
      channel returned (None when a repeated user makes the transaction roll back). */
  function CreatedDm(cs: Chans, ws: Workspace, ids: seq<User>, found: Option<ChannelId>): (Chans, Option<ChannelId>) {
    if found.Some? then (cs, found)
    else if !NoDup(ids) then (cs, None)
    else (cs + [NewDm(ws, ids)], Some(|cs|))
  }

  predicate DmFor(c: Chan, ws: Workspace, users: set<User>) {
    c.ws == ws && IsDm(c.kind) && c.members.Keys == users
  }

  ghost predicate HasDm(cs: Chans, ws: Workspace, users: set<User>) {
    exists i :: 0 <= i < |cs| && DmFor(cs[i], ws, users)
  }

  // ---------- CreateDM finds the set ----------

  lemma SameIdsSameHash(a: seq<User>, b: seq<User>)
    requires ValidIds(a) && multiset(a) == multiset(b)
    ensures ValidIds(b) && ComputeDMHash(a) == ComputeDMHash(b)
  {
    forall i | 0 <= i < |b|
      ensures ValidId(b[i])
    {
      assert b[i] in multiset(b);
      assert b[i] in a;
    }
    HashIsCanonical(a, b);
  }

  /** A DM carries the hash of a list exactly when the list names its members. */
  lemma HashNamesMembers(c: Chan, ws: Workspace, ids: seq<User>)
    requires ChanOk(c) && ValidIds(ids) && NoDup(ids)
    ensures c.ws == ws && c.hash == Some(ComputeDMHash(ids)) <==> DmFor(c, ws, set u | u in ids)
  {
    HashIdentifiesSet(ids, c.members.Keys);
    NoDupLists(ids);
    if Lists(ids, c.members.Keys) {
      ListOfSet(ids, c.members.Keys);
    }
  }

  /** Whichever row the lookup returns, it is a DM of exactly the given users; it
      returns none exactly when there is no such DM. */
  lemma LookupNamesTheSet(cs: Chans, ws: Workspace, ids: seq<User>, found: Option<ChannelId>)
    requires Inv(cs) && ValidIds(ids) && NoDup(ids) && Looked(cs, ws, ComputeDMHash(ids), found)
    ensures found.Some? ==> DmFor(cs[found.value], ws, set u | u in ids)
    ensures found.None? <==> !HasDm(cs, ws, set u | u in ids)
  {
    forall i | 0 <= i < |cs|
      ensures cs[i].ws == ws && cs[i].hash == Some(ComputeDMHash(ids)) <==> DmFor(cs[i], ws, set u | u in ids)
    {
      HashNamesMembers(cs[i], ws, ids);
    }
  }

  /** From every reachable state CreateDM returns a DM of exactly the given users, and
      asking again with the same users in any order creates nothing and returns such a
      DM - the same one when no member set has two. */
  lemma CreateDmFindsTheSet(cs: Chans, ws: Workspace, ids: seq<User>, found: Option<ChannelId>,
                            again: seq<User>, found': Option<ChannelId>)
    requires Inv(cs) && ValidIds(ids) && NoDup(ids) && |ids| >= 2 && multiset(again) == multiset(ids)
    requires Looked(cs, ws, ComputeDMHash(ids), found)
    requires Looked(CreatedDm(cs, ws, ids, found).0, ws, ComputeDMHash(again), found')
    ensures var (cs1, r) := CreatedDm(cs, ws, ids, found);
            r.Some? && r.value < |cs1| && DmFor(cs1[r.value], ws, set u | u in ids)
    ensures var (cs1, r) := CreatedDm(cs, ws, ids, found);
            found'.Some? && DmFor(cs1[found'.value], ws, set u | u in ids) &&
            CreatedDm(cs1, ws, again, found') == (cs1, found') && (UniqueDms(cs) ==> found' == r)
  {
    var users := set u | u in ids;
    var (cs1, r) := CreatedDm(cs, ws, ids, found);
    LookupNamesTheSet(cs, ws, ids, found);
    if found.None? {
      NewDmIsOk(ws, ids);
      InsertKeepsInv(cs, NewDm(ws, ids));
    }
    assert DmFor(cs1[r.value], ws, users);
    SameIdsSameHash(ids, again);
    LookupNamesTheSet(cs1, ws, ids, found');
    if UniqueDms(cs) {
      CreateKeepsUnique(cs, ws, ids, found);
    }
  }

  lemma DedupedUsers(me: User, others: seq<User>)
    ensures (set u | u in Dedupe(others + [me])) == (set u | u in others) + {me}
  {
    DedupeMeaning(others + [me]);
  }

  /** The request: whatever list of other users it names, the channel returned holds
      exactly them and the caller. */
  lemma RequestFindsTheSet(cs: Chans, ws: Workspace, me: User, others: seq<User>, found: Option<ChannelId>)
    requires Inv(cs) && ValidId(me) && ValidIds(others) && |Dedupe(others + [me])| >= 2
    requires Looked(cs, ws, ComputeDMHash(Dedupe(others + [me])), found)
    ensures var (cs1, r) := CreatedDm(cs, ws, Dedupe(others + [me]), found);
            r.Some? && r.value < |cs1| && DmFor(cs1[r.value], ws, (set u | u in others) + {me})
  {
    var ids := Dedupe(others + [me]);
    DedupedIdsAreValid(me, others);
    DedupedUsers(me, others);
    LookupNamesTheSet(cs, ws, ids, found);
    if found.None? {
      NewDmIsOk(ws, ids);
    }
  }

  lemma TwoParticipants(me: User, others: seq<User>)
    ensures |Dedupe(others + [me])| < 2 <==> forall u :: u in others ==> u == me
  {
    var all, d := others + [me], Dedupe(others + [me]);
    DedupeMeaning(all);
    assert me in all && me in d;
    if forall u :: u in others ==> u == me {
      forall i | 0 <= i < |d|
        ensures d[i] == me
      {
        assert d[i] in d && d[i] in all;
      }
      assert (set u | u in d) == {me};
      NoDupLists(d);
    } else {
      var u :| u in others && u != me;
      assert u in all && u in d;
    }
  }

  // ---------- one DM per member set ----------

  /** No two DMs of a workspace have the same members. */
  ghost predicate UniqueDms(cs: Chans) {
    forall i, j :: 0 <= i < j < |cs| && IsDm(cs[i].kind) ==> !DmFor(cs[j], cs[i].ws, cs[i].members.Keys)
  }

  /** Some other channel of the workspace is a DM of these users. */
  ghost predicate HasTwin(cs: Chans, ch: ChannelId, users: set<User>)
    requires ch < |cs|
  {
    exists i :: 0 <= i < |cs| && i != ch && DmFor(cs[i], cs[ch].ws, users)
  }

  lemma CreateKeepsUnique(cs: Chans, ws: Workspace, ids: seq<User>, found: Option<ChannelId>)
    requires Inv(cs) && UniqueDms(cs) && ValidIds(ids) && NoDup(ids) && Looked(cs, ws, ComputeDMHash(ids), found)
    ensures UniqueDms(CreatedDm(cs, ws, ids, found).0)
  {
    LookupNamesTheSet(cs, ws, ids, found);
    if found.None? {
      InsertIsUniqueIff(cs, ws, ids);
    }
  }

  lemma InsertIsUniqueIff(cs: Chans, ws: Workspace, ids: seq<User>)
    requires UniqueDms(cs)
    ensures UniqueDms(cs + [NewDm(ws, ids)]) <==> !HasDm(cs, ws, set u | u in ids)
  {
    var c := NewDm(ws, ids);
    var cs' := cs + [c];
    assert c.members.Keys == set u | u in ids;
    if i :| 0 <= i < |cs| && DmFor(cs[i], ws, c.members.Keys) {
      assert cs'[i] == cs[i] && cs'[|cs|] == c;
      assert DmFor(cs'[|cs|], cs'[i].ws, cs'[i].members.Keys);
    }
    forall i, j | 0 <= i < j < |cs'| && IsDm(cs'[i].kind) && DmFor(cs'[j], cs'[i].ws, cs'[i].members.Keys)
      ensures HasDm(cs, ws, c.members.Keys)
    {
      assert j == |cs| && DmFor(cs[i], ws, c.members.Keys);
    }
  }

  /** Rewriting one channel. */
  lemma UpdateIsUniqueIff(cs: Chans, ch: ChannelId, c: Chan)
    requires UniqueDms(cs) && ch < |cs| && c.ws == cs[ch].ws
    ensures UniqueDms(cs[ch := c]) <==> !(IsDm(c.kind) && HasTwin(cs, ch, c.members.Keys))
  {
    var cs' := cs[ch := c];
    if IsDm(c.kind) && HasTwin(cs, ch, c.members.Keys) {
      var i :| 0 <= i < |cs| && i != ch && DmFor(cs[i], cs[ch].ws, c.members.Keys);
      var low, high := if i < ch then i else ch, if i < ch then ch else i;
      assert DmFor(cs'[high], cs'[low].ws, cs'[low].members.Keys);
    }
    forall i, j | 0 <= i < j < |cs'| && IsDm(cs'[i].kind) && DmFor(cs'[j], cs'[i].ws, cs'[i].members.Keys)
      ensures IsDm(c.kind) && HasTwin(cs, ch, c.members.Keys)
    {
      assert i == ch || j == ch;
      assert DmFor(cs[if i == ch then j else i], cs[ch].ws, c.members.Keys);
    }
  }

  lemma WithoutMemberStaysUnique(cs: Chans, ws: Workspace, user: User)
    requires UniqueDms(cs)
    ensures UniqueDms(Perform(cs, DeleteMemberships(ws, user), []))
  {
    var cs' := Perform(cs, DeleteMemberships(ws, user), []);
    forall i, j | 0 <= i < j < |cs'| && IsDm(cs'[i].kind)
      ensures !DmFor(cs'[j], cs'[i].ws, cs'[i].members.Keys)
    {
      assert cs'[i] == cs[i] && (IsDm(cs[j].kind) ==> cs'[j] == cs[j]);
      assert !DmFor(cs[j], cs[i].ws, cs[i].members.Keys);
    }
  }

  /** The write gives some DM the members that another one has: by creating it, by
      adding or deleting a member row of a DM (or of a channel it makes a DM), or by
      writing a DM type onto a channel that is none. */
  ghost predicate MakesTwin(cs: Chans, w: Write) {
    match w
    case InsertDm(ws, ids) => NoDup(ids) && HasDm(cs, ws, set u | u in ids)
    case InsertMember(ch, user, _) => InsertsIntoDm(cs, ch, user) && HasTwin(cs, ch, cs[ch].members.Keys + {user})
    case InsertOrReset(ch, user) => InsertsIntoDm(cs, ch, user) && HasTwin(cs, ch, cs[ch].members.Keys + {user})
    case InsertDmMember(ch, user, _) =>
      ch < |cs| && user !in cs[ch].members && HasTwin(cs, ch, cs[ch].members.Keys + {user})
    case DeleteMember(ch, user) =>
      ch < |cs| && user in cs[ch].members && IsDm(cs[ch].kind) && HasTwin(cs, ch, cs[ch].members.Keys - {user})
    case DeleteGroupMember(ch, user) =>
      ch < |cs| && user in cs[ch].members && HasTwin(cs, ch, cs[ch].members.Keys - {user})
    case SetKind(ch, kind) =>
      ch < |cs| && IsDm(kind) && !IsDm(cs[ch].kind) && HasTwin(cs, ch, cs[ch].members.Keys)
    case _ => false
  }

  predicate InsertsIntoDm(cs: Chans, ch: ChannelId, user: User) {
    ch < |cs| && user !in cs[ch].members && IsDm(cs[ch].kind)
  }

  /** Where a rewritten channel keeps what it was - the same DM, or no DM - it has no
      twin; elsewhere the case above applies. */
  lemma RewriteMakesTwinIff(cs: Chans, w: Write, remaining: seq<User>)
    requires UniqueDms(cs) && !w.Nothing? && !w.InsertChannel? && !w.InsertDm? && !w.DeleteMemberships? && w.ch < |cs|
    ensures var c := Rewritten(cs[w.ch], w, remaining);
            IsDm(c.kind) && HasTwin(cs, w.ch, c.members.Keys) <==> MakesTwin(cs, w)
  {
    var c, c' := cs[w.ch], Rewritten(cs[w.ch], w, remaining);
    match w
    case InsertMember(_, user, role) => MembersAfterInsert(c, user, FreshMember(role));
    case InsertOrReset(_, user) =>
      MembersAfterInsert(c, user, FreshMember(Some(Poster)));
      if user in c.members {
        MembersAfterInsert(c, user, c.members[user].(role := Some(Poster)));
      }
    case InsertDmMember(_, user, current) => MembersAfterInsert(c, user, FreshMember(Some(Poster)));
    case DeleteMember(_, user) => MembersAfterDelete(c, user);
    case DeleteGroupMember(_, user) => MembersAfterDelete(c, user);
    case _ =>
  }

  lemma MembersAfterInsert(c: Chan, user: User, m: Member)
    ensures c.members[user := m].Keys == c.members.Keys + {user}
    ensures user in c.members ==> c.members.Keys + {user} == c.members.Keys
  {}

  lemma MembersAfterDelete(c: Chan, user: User)
    ensures (c.members - {user}).Keys == c.members.Keys - {user}
    ensures user !in c.members ==> c.members - {user} == c.members
  {}

  /** Any write, however long ago it was decided, keeps "one DM per member set" exactly
      when no other DM of the workspace has the members it produces. */
  lemma WriteKeepsUniqueIffNoTwin(cs: Chans, w: Write, remaining: seq<User>)
    requires UniqueDms(cs)
    ensures UniqueDms(Perform(cs, w, remaining)) <==> !MakesTwin(cs, w)
  {
    match w
    case Nothing =>
    case InsertChannel(ws, private, isDefault, creator) =>
    case InsertDm(ws, ids) => InsertIsUniqueIff(cs, ws, ids);
    case DeleteMemberships(ws, user) => WithoutMemberStaysUnique(cs, ws, user);
    case _ =>
      if w.ch < |cs| {
        RewriteKeepsWorkspace(cs[w.ch], w, remaining);
        UpdateIsUniqueIff(cs, w.ch, Rewritten(cs[w.ch], w, remaining));
        RewriteMakesTwinIff(cs, w, remaining);
      }
  }

  lemma RewriteKeepsWorkspace(c: Chan, w: Write, remaining: seq<User>)
    ensures Rewritten(c, w, remaining).ws == c.ws
  {}

  // ---------- a stale edit makes a twin ----------

  /** a, b and c have a group DM. An edit of it reads its type; a converts it to a
      private channel; the three get a new group DM; then the edit writes "group_dm"
      back onto the converted channel. */
  function StaleEditSteps(ws: Workspace, a: User, b: User, c: User): seq<Step> {
    var none := Answer([], None, []);
    [Begin(0, CreateDm(ws, a, [b, c]), none)] + ([Commit(0, [])] + ([Begin(1, Edit(0, None), none)] +
    ([Begin(2, Convert(0, a, false), none)] + ([Commit(2, [])] + ([Begin(3, CreateDm(ws, a, [b, c]), none)] +
    ([Commit(3, [])] + [Commit(1, [])]))))))
  }

  lemma StepThen(s: State, step: Step, t: State, rest: seq<Step>)
    requires Possible(s, step) && Next(s, step) == t
    ensures AllPossible(t, rest) ==> AllPossible(s, [step] + rest)
    ensures Interleave(s, [step] + rest) == Interleave(t, rest)
  {
    assert ([step] + rest)[1..] == rest;
  }

  lemma StaleEditMakesTwin(ws: Workspace, a: User, b: User, c: User)
    requires ValidId(a) && ValidId(b) && ValidId(c) && a != b && b != c && a != c
    ensures AllPossible(State([], map[]), StaleEditSteps(ws, a, b, c))
    ensures !UniqueDms(Interleave(State([], map[]), StaleEditSteps(ws, a, b, c)).chans)
  {
    var none, ids := Answer([], None, []), [b, c, a];
    var g := NewDm(ws, ids);
    var converted := Converted(g, a, false);
    var edit := SetKind(0, GroupDm);
    var s1 := State([], map[0 := InsertDm(ws, ids)]);
    var s3, s4 := State([g], map[1 := edit]), State([g], map[1 := edit, 2 := SetConverted(0, a, false)]);
    var s5, s6 := State([converted], map[1 := edit]), State([converted], map[1 := edit, 3 := InsertDm(ws, ids)]);
    var s7, s8 := State([converted, g], map[1 := edit]), State([converted.(kind := GroupDm), g], map[]);
    var begin, again := Begin(0, CreateDm(ws, a, [b, c]), none), Begin(3, CreateDm(ws, a, [b, c]), none);
    DedupeKeepsDistinct(a, b, c);
    GroupIsCreated(ws, a, b, c);
    EditThenConvert(g, a);
    GroupIsCreatedAgain(ws, a, b, c);
    EditIsWrittenBack(converted, g);
    assert [Commit(1, [])] + [] == [Commit(1, [])];
    StepThen(s7, Commit(1, []), s8, []);
    StepThen(s6, Commit(3, []), s7, [Commit(1, [])]);
    var r5 := [Commit(3, [])] + [Commit(1, [])];
    StepThen(s5, again, s6, r5);
    var r4 := [again] + r5;
    StepThen(s4, Commit(2, []), s5, r4);
    var r3 := [Commit(2, [])] + r4;
    StepThen(s3, Begin(2, Convert(0, a, false), none), s4, r3);
    var r2 := [Begin(2, Convert(0, a, false), none)] + r3;
    StepThen(State([g], map[]), Begin(1, Edit(0, None), none), s3, r2);
    var r1 := [Begin(1, Edit(0, None), none)] + r2;
    StepThen(s1, Commit(0, []), State([g], map[]), r1);
    StepThen(State([], map[]), begin, s1, [Commit(0, [])] + r1);
  }

  lemma GroupIsCreated(ws: Workspace, a: User, b: User, c: User)
    requires ValidId(a) && ValidId(b) && ValidId(c) && a != b && b != c && a != c && Dedupe([b, c] + [a]) == [b, c, a]
    ensures var s, t := State([], map[]), State([], map[0 := InsertDm(ws, [b, c, a])]);
            var begin := Begin(0, CreateDm(ws, a, [b, c]), Answer([], None, []));
            Possible(s, begin) && Next(s, begin) == t &&
            Possible(t, Commit(0, [])) && Next(t, Commit(0, [])) == State([NewDm(ws, [b, c, a])], map[])
  {
    assert NoDup([b, c, a]);
    assert map[0 := InsertDm(ws, [b, c, a])] - {0} == map[];
  }

  lemma EditThenConvert(g: Chan, a: User)
    requires g.kind == GroupDm && a in g.members
    ensures var edit, convert, none := SetKind(0, GroupDm), SetConverted(0, a, false), Answer([], None, []);
            var s, t, u := State([g], map[]), State([g], map[1 := edit]), State([g], map[1 := edit, 2 := convert]);
            Possible(s, Begin(1, Edit(0, None), none)) && Next(s, Begin(1, Edit(0, None), none)) == t &&
            Possible(t, Begin(2, Convert(0, a, false), none)) && Next(t, Begin(2, Convert(0, a, false), none)) == u &&
            Possible(u, Commit(2, [])) && Next(u, Commit(2, [])) == State([Converted(g, a, false)], map[1 := edit])
  {
    DropLast(SetKind(0, GroupDm), 2, SetConverted(0, a, false));
  }

  lemma DropLast(first: Write, r: RequestId, second: Write)
    requires r != 1
    ensures map[1 := first, r := second] - {r} == map[1 := first]
  {}

  lemma GroupIsCreatedAgain(ws: Workspace, a: User, b: User, c: User)
    requires ValidId(a) && ValidId(b) && ValidId(c) && a != b && b != c && a != c && Dedupe([b, c] + [a]) == [b, c, a]
    ensures var g, edit := NewDm(ws, [b, c, a]), SetKind(0, GroupDm);
            var converted, begin := Converted(g, a, false), Begin(3, CreateDm(ws, a, [b, c]), Answer([], None, []));
            var s := State([converted], map[1 := edit]);
            var t := State([converted], map[1 := edit, 3 := InsertDm(ws, [b, c, a])]);
            Possible(s, begin) && Next(s, begin) == t &&
            Possible(t, Commit(3, [])) && Next(t, Commit(3, [])) == State([converted, g], map[1 := edit])
  {
    assert NoDup([b, c, a]);
    DropLast(SetKind(0, GroupDm), 3, InsertDm(ws, [b, c, a]));
  }

  lemma EditIsWrittenBack(converted: Chan, g: Chan)
    requires converted.ws == g.ws && converted.members.Keys == g.members.Keys && g.kind == GroupDm
    ensures var s := State([converted, g], map[1 := SetKind(0, GroupDm)]);
            var t := State([converted.(kind := GroupDm), g], map[]);
            Possible(s, Commit(1, [])) && Next(s, Commit(1, [])) == t && !UniqueDms(t.chans)
  {
    var cs := [converted.(kind := GroupDm), g];
    assert map[1 := SetKind(0, GroupDm)] - {1} == map[];
    assert DmFor(cs[1], cs[0].ws, cs[0].members.Keys);
  }

  // ---------- uninterrupted requests ----------

  lemma ApplyKeepsUniqueIffNoTwin(cs: Chans, op: Op, a: Answer)
    requires UniqueDms(cs)
    ensures UniqueDms(Apply(cs, op, a)) <==> !MakesTwin(cs, Decide(cs, op, a))
  {
    WriteKeepsUniqueIffNoTwin(cs, Decide(cs, op, a), a.remaining);
  }

  lemma LookupAvoidsTwin(cs: Chans, ws: Workspace, me: User, others: seq<User>, a: Answer)
    requires Inv(cs) && ValidId(me) && ValidIds(others) && Read(cs, CreateDm(ws, me, others), a)
    ensures !MakesTwin(cs, Decide(cs, CreateDm(ws, me, others), a))
  {
    DedupedIdsAreValid(me, others);
    LookupNamesTheSet(cs, ws, Dedupe(others + [me]), a.found);
  }

  lemma OthersDecideOtherwise(cs: Chans, op: Op, a: Answer)
    requires !op.CreateDm? && !op.AddMember? && !op.Leave?
    ensures !MakesTwin(cs, Decide(cs, op, a))
  {}

  /** Among uninterrupted requests only additions and departures can do it: CreateDM
      looks the member set up first. */
  lemma OnlyAddAndLeaveMakeTwins(cs: Chans, op: Op, a: Answer)
    requires Inv(cs) && UniqueDms(cs) && IdsValid(op) && Answered(cs, op, a) && !op.AddMember? && !op.Leave?
    ensures UniqueDms(Apply(cs, op, a))
  {
    ApplyKeepsUniqueIffNoTwin(cs, op, a);
    if op.CreateDm? {
      LookupAvoidsTwin(cs, op.ws, op.me, op.others, a);
    } else {
      OthersDecideOtherwise(cs, op, a);
    }
  }

  /** It happens: a and b have a DM, c leaves the group DM of a, b and c. */
  lemma LeaveMakesTwin(ws: Workspace, a: User, b: User, c: User)
    requires ValidId(a) && ValidId(b) && ValidId(c) && a != b && b != c && a != c
    ensures var reqs := [Request(CreateDm(ws, a, [b]), Answer([], None, [])),
                         Request(CreateDm(ws, a, [b, c]), Answer([], None, [])),
                         Request(Leave(1, c), Answer([], None, [a, b]))];
            AllAnswered([], reqs) && !UniqueDms(Run([], reqs))
  {
    var none := Answer([], None, []);
    var first, second, third := Request(CreateDm(ws, a, [b]), none), Request(CreateDm(ws, a, [b, c]), none),
                                Request(Leave(1, c), Answer([], None, [a, b]));
    var cs1, cs2 := [NewDm(ws, [b, a])], [NewDm(ws, [b, a]), NewDm(ws, [b, c, a])];
    DedupeKeepsDistinct(a, b, c);
    PairFirst(ws, a, b);
    TrioSecond(ws, a, b, c);
    LeaveAfterTrio(ws, a, b, c);
    assert [third] + [] == [third];
    RunCons(cs2, third, []);
    RunCons(cs1, second, [third]);
    RunCons([], first, [second] + [third]);
    assert [first] + ([second] + [third]) == [first, second, third];
  }

  lemma RunCons(cs: Chans, req: Request, rest: seq<Request>)
    ensures Run(cs, [req] + rest) == Run(Apply(cs, req.op, req.answer), rest)
    ensures AllAnswered(cs, [req] + rest) <==>
              IdsValid(req.op) && Answered(cs, req.op, req.answer) && AllAnswered(Apply(cs, req.op, req.answer), rest)
  {
    assert ([req] + rest)[1..] == rest;
  }

  lemma DedupeSnoc(ids: seq<User>, x: User)
    ensures Dedupe(ids + [x]) == if x in Dedupe(ids) then Dedupe(ids) else Dedupe(ids) + [x]
  {
    assert (ids + [x])[..|ids|] == ids;
  }

  lemma DedupeKeepsDistinct(a: User, b: User, c: User)
    requires a != b && b != c && a != c
    ensures Dedupe([b] + [a]) == [b, a] && Dedupe([b, c] + [a]) == [b, c, a]
  {
    DedupeSnoc([], b);
    assert [] + [b] == [b];
    DedupeSnoc([b], a);
    DedupeSnoc([b], c);
    assert [b] + [c] == [b, c];
    DedupeSnoc([b, c], a);
  }

  lemma PairFirst(ws: Workspace, a: User, b: User)
    requires Dedupe([b] + [a]) == [b, a] && a != b
    ensures var none := Answer([], None, []);
            Answered([], CreateDm(ws, a, [b]), none) && Apply([], CreateDm(ws, a, [b]), none) == [NewDm(ws, [b, a])]
  {
    assert NoDup([b, a]);
  }

  lemma PairAndTrioDiffer(a: User, b: User, c: User)
    requires ValidId(a) && ValidId(b) && ValidId(c)
    ensures ComputeDMHash([b, a]) != ComputeDMHash([b, c, a])
  {
    HashIsCanonical([b, a], [b, c, a]);
    assert |multiset([b, a])| == 2 && |multiset([b, c, a])| == 3;
  }

  lemma TrioSecond(ws: Workspace, a: User, b: User, c: User)
    requires ValidId(a) && ValidId(b) && ValidId(c) && a != b && b != c && a != c
    requires Dedupe([b, c] + [a]) == [b, c, a]
    ensures var none, pair, trio := Answer([], None, []), NewDm(ws, [b, a]), NewDm(ws, [b, c, a]);
            Answered([pair], CreateDm(ws, a, [b, c]), none) &&
            Apply([pair], CreateDm(ws, a, [b, c]), none) == [pair, trio]
  {
    var pair, op := NewDm(ws, [b, a]), CreateDm(ws, a, [b, c]);
    PairAndTrioDiffer(a, b, c);
    assert Looked([pair], ws, ComputeDMHash([b, c, a]), None);
    assert Decide([pair], op, Answer([], None, [])) == InsertDm(ws, [b, c, a]);
    assert NoDup([b, c, a]);
  }

  lemma LeaveAfterTrio(ws: Workspace, a: User, b: User, c: User)
    requires a != b && b != c && a != c
    ensures var cs, ans := [NewDm(ws, [b, a]), NewDm(ws, [b, c, a])], Answer([], None, [a, b]);
            Answered(cs, Leave(1, c), ans) && !UniqueDms(Apply(cs, Leave(1, c), ans))
  {
    var pair, trio, ans := NewDm(ws, [b, a]), NewDm(ws, [b, c, a]), Answer([], None, [a, b]);
    var left := LeftGroup(trio, c, [a, b]);
    var cs' := Apply([pair, trio], Leave(1, c), ans);
    assert trio.members.Keys == {a, b, c} && {a, b, c} - {c} == {a, b};
    assert left.members.Keys == {a, b} && pair.members.Keys == {a, b};
    assert cs'[0] == pair && cs'[1] == left;
    assert DmFor(cs'[1], cs'[0].ws, cs'[0].members.Keys);
  }

  // ---------- automatic DMs ----------

  const MAX_AUTO_DMS := 5

  function Others(members: seq<User>, me: User): seq<User> {
    if members == [] then []
    else Others(members[..|members| - 1], me) + if members[|members| - 1] == me then [] else [members[|members| - 1]]
  }

  lemma {:induction false} OthersPrefix(members: seq<User>, i: nat, me: User)
    requires i <= |members|
    ensures Others(members[..i], me) <= Others(members, me)
  {
    if i == |members| {
      assert members[..i] == members;
    } else {
      OthersPrefix(members[..|members| - 1], i, me);
      assert members[..|members| - 1][..i] == members[..i];
    }
  }

  lemma PairFindsDm(cs: Chans, ws: Workspace, a: User, b: User, found: Option<ChannelId>)
    requires Inv(cs) && ValidId(a) && ValidId(b) && a != b && Looked(cs, ws, ComputeDMHash([a, b]), found)
    ensures var (cs1, r) := CreatedDm(cs, ws, [a, b], found); r.Some? && cs <= cs1 && HasDm(cs1, ws, {a, b})
  {
    var (cs1, r) := CreatedDm(cs, ws, [a, b], found);
    LookupNamesTheSet(cs, ws, [a, b], found);
    assert (set u | u in [a, b]) == {a, b};
    if found.None? {
      NewDmIsOk(ws, [a, b]);
    }
    assert DmFor(cs1[r.value], ws, {a, b});
  }

  /** The first five others, by counting those before. */
  lemma {:induction false} OthersAreCounted(members: seq<User>, me: User)
    ensures |Others(members, me)| == Count(members, (u: User) => u != me)
  {
    if members == [] {
    } else {
      OthersAreCounted(members[..|members| - 1], me);
    }
  }

  lemma FirstOthers(members: seq<User>, me: User)
    ensures forall i :: 0 <= i < |members| && members[i] != me && Count(members[..i], (u: User) => u != me) < 5 ==>
              members[i] in First(Others(members, me), MAX_AUTO_DMS)
  {
    forall i | 0 <= i < |members| && members[i] != me && Count(members[..i], (u: User) => u != me) < 5
      ensures members[i] in First(Others(members, me), MAX_AUTO_DMS)
    {
      OneOfFirst(members, me, i);
    }
  }

  lemma OneOfFirst(members: seq<User>, me: User, i: nat)
    requires i < |members| && members[i] != me && Count(members[..i], (u: User) => u != me) < 5
    ensures members[i] in First(Others(members, me), MAX_AUTO_DMS)
  {
    var before := Others(members[..i], me);
    OthersAreCounted(members[..i], me);
    OthersPrefix(members, i + 1, me);
    assert members[..i + 1][..i] == members[..i];
    assert Others(members[..i + 1], me) == before + [members[i]];
    assert First(Others(members, me), MAX_AUTO_DMS)[|before|] == members[i];
  }
}
