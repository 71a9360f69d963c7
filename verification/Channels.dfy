/** Channels, memberships and the DM state machine
    (server/internal/channel/repository.go, server/internal/handler/channel.go).

    A channel row carries its membership rows, keyed by user because a user is in a
    channel at most once. Channel ids are positions.

    A request first reads rows and decides, then writes in one transaction. Decide
    and Perform are kept apart so that other requests can come in between. */
module Channels {
  import opened Common
  import opened DmHash

  type Workspace = nat
  type ChannelId = nat
  type RequestId = nat

  const DM_LIMIT := 8

  datatype Kind = Public | Private | Dm | GroupDm
  datatype Role = Admin | Poster | Viewer
  datatype Member = Member(role: Option<Role>, lastRead: Option<nat>)

  datatype Chan = Chan(
    ws: Workspace,
    kind: Kind,
    hash: Option<Digest>,
    isDefault: bool,
    archived: bool,
    members: map<User, Member>)

  type Chans = seq<Chan>

  predicate IsDm(k: Kind) {
    k == Dm || k == GroupDm
  }

  /** Type and hash are in step with the membership rows. */
  ghost predicate ChanOk(c: Chan) {
    c.hash == (if IsDm(c.kind) then Some(HashOfSet(c.members.Keys)) else None) &&
    (c.kind == Dm ==> |c.members.Keys| == 2) &&
    (c.kind == GroupDm ==> |c.members.Keys| >= 3) &&
    (c.isDefault ==> c.kind == Public) &&
    forall u :: u in c.members.Keys ==> ValidId(u)
  }

  ghost predicate Inv(cs: Chans) {
    forall i :: 0 <= i < |cs| ==> ChanOk(cs[i])
  }

  // ---------- row updates ----------

  function FreshMember(role: Option<Role>): Member {
    Member(role, None)
  }

  function NewChannel(ws: Workspace, private: bool, isDefault: bool, creator: User): Chan {
    Chan(ws, if private && !isDefault then Private else Public, None, isDefault, false,
         map[creator := FreshMember(Some(Admin))])
  }

  function NewDm(ws: Workspace, ids: seq<User>): Chan {
    Chan(ws, if |ids| > 2 then GroupDm else Dm, Some(ComputeDMHash(ids)), false, false,
         map u | u in ids :: FreshMember(Some(Poster)))
  }

  /** A second membership row for the same user is refused. */
  function Added(c: Chan, user: User, role: Option<Role>): Chan {
    if user in c.members then c else c.(members := c.members[user := FreshMember(role)])
  }

  /** Joining again resets the role. */
  function Joined(c: Chan, user: User): Chan {
    if user in c.members then c.(members := c.members[user := c.members[user].(role := Some(Poster))])
    else Added(c, user, Some(Poster))
  }

  /** AddMemberToDM: type and hash are computed from the list the caller read
      earlier, not from the rows. */
  function AddedToDm(c: Chan, user: User, current: seq<User>): Chan {
    if user in c.members then c
    else Added(c, user, Some(Poster)).(
           hash := Some(ComputeDMHash(current + [user])),
           kind := if |current + [user]| >= 3 then GroupDm else Dm)
  }

  /** LeaveGroupDM: type and hash are computed from the rows that remain, whatever
      the channel has become since it was read. */
  function LeftGroup(c: Chan, user: User, remaining: seq<User>): Chan {
    if user !in c.members then c
    else c.(members := c.members - {user}, hash := Some(ComputeDMHash(remaining)),
            kind := if |remaining| == 2 then Dm else GroupDm)
  }

  /** ConvertToChannel */
  function Converted(c: Chan, user: User, toPublic: bool): Chan {
    var members := if user in c.members then c.members[user := c.members[user].(role := Some(Admin))] else c.members;
    c.(kind := if toPublic then Public else Private, hash := None, members := members)
  }

  // ---------- requests: what they read and decide ----------

  datatype Op =
    | CreateChannel(ws: Workspace, private: bool, isDefault: bool, creator: User)
    | CreateDm(ws: Workspace, me: User, others: seq<User>)
    | AddMember(ch: ChannelId, user: User, role: Option<Role>)
    | Join(ch: ChannelId, user: User)
    | Leave(ch: ChannelId, user: User)
    | Convert(ch: ChannelId, user: User, toPublic: bool)
    | Edit(ch: ChannelId, kind: Option<Kind>)
    | Archive(ch: ChannelId)
    | LeaveWorkspace(ws: Workspace, user: User)

  /** What the database answers where its answer is not determined: the ids of the
      channel's members in some order, some DM with the requested hash, and the ids
      that remain after a departure. */
  datatype Answer = Answer(members: seq<User>, found: Option<ChannelId>, remaining: seq<User>)

  /** The write a request has decided on. */
  datatype Write =
    | Nothing
    | InsertChannel(ws: Workspace, private: bool, isDefault: bool, creator: User)
    | InsertDm(ws: Workspace, ids: seq<User>)
    | DeleteMemberships(ws: Workspace, user: User)
    | InsertMember(ch: ChannelId, user: User, role: Option<Role>)
    | InsertOrReset(ch: ChannelId, user: User)
    | InsertDmMember(ch: ChannelId, user: User, current: seq<User>)
    | DeleteMember(ch: ChannelId, user: User)
    | DeleteGroupMember(ch: ChannelId, user: User)
    | SetConverted(ch: ChannelId, user: User, toPublic: bool)
    | SetKind(ch: ChannelId, kind: Kind)
    | SetArchived(ch: ChannelId)

  predicate IdsValid(op: Op) {
    match op
    case CreateChannel(_, _, _, u) => ValidId(u)
    case CreateDm(_, me, others) => ValidId(me) && ValidIds(others)
    case AddMember(_, u, _) => ValidId(u)
    case Join(_, u) => ValidId(u)
    case _ => true
  }

  /** The handler's dedupe loop keeps the first occurrence of every id. */
  function Dedupe(ids: seq<User>): seq<User> {
    if ids == [] then []
    else
      var front := Dedupe(ids[..|ids| - 1]);
      if ids[|ids| - 1] in front then front else front + [ids[|ids| - 1]]
  }

  predicate NoDup(ids: seq<User>) {
    forall i, j :: 0 <= i < j < |ids| ==> ids[i] != ids[j]
  }

  /** A lookup by hash returns some channel that has it, if there is one. */
  predicate Looked(cs: Chans, ws: Workspace, h: Digest, found: Option<ChannelId>) {
    match found
    case Some(i) => i < |cs| && cs[i].ws == ws && cs[i].hash == Some(h)
    case None => forall i :: 0 <= i < |cs| ==> cs[i].ws != ws || cs[i].hash != Some(h)
  }

  /** What a departure does to a channel whose row was read as c. */
  function RemovalOf(c: Chan, ch: ChannelId, user: User): Write {
    if c.kind == Dm || c.isDefault then Nothing
    else if c.kind == GroupDm then DeleteGroupMember(ch, user)
    else DeleteMember(ch, user)
  }

  /** UpdateChannel writes the type back even when it only edits something else. */
  function EditOf(c: Chan, ch: ChannelId, kind: Option<Kind>): Write {
    if kind.None? then SetKind(ch, c.kind)
    else if IsDm(kind.value) || IsDm(c.kind) || (c.isDefault && kind.value == Private) then Nothing
    else SetKind(ch, kind.value)
  }

  function Decide(cs: Chans, op: Op, a: Answer): Write {
    match op
    case CreateChannel(ws, private, isDefault, creator) => InsertChannel(ws, private, isDefault, creator)
    case CreateDm(ws, me, others) =>
      var ids := Dedupe(others + [me]);
      if |ids| < 2 || a.found.Some? then Nothing else InsertDm(ws, ids)
    case LeaveWorkspace(ws, user) => DeleteMemberships(ws, user)
    case _ => if op.ch < |cs| then DecideFor(cs[op.ch], op, a) else Nothing
  }

  /** Decisions about one channel, read as c. */
  function DecideFor(c: Chan, op: Op, a: Answer): Write {
    match op
    case AddMember(ch, user, role) =>
      if IsDm(c.kind) then if |a.members| >= DM_LIMIT then Nothing else InsertDmMember(ch, user, a.members)
      else if c.archived then Nothing
      else InsertMember(ch, user, role)
    case Join(ch, user) => if c.kind == Public && !c.archived then InsertOrReset(ch, user) else Nothing
    case Leave(ch, user) => RemovalOf(c, ch, user)
    case Convert(ch, user, toPublic) =>
      if c.kind == GroupDm && user in c.members then SetConverted(ch, user, toPublic) else Nothing
    case Edit(ch, kind) => EditOf(c, ch, kind)
    case Archive(ch) => if IsDm(c.kind) || c.isDefault then Nothing else SetArchived(ch)
    case _ => Nothing
  }

  // ---------- requests: what they write ----------

  function Rewritten(c: Chan, w: Write, remaining: seq<User>): Chan {
    match w
    case InsertMember(_, user, role) => Added(c, user, role)
    case InsertOrReset(_, user) => Joined(c, user)
    case InsertDmMember(_, user, current) => AddedToDm(c, user, current)
    case DeleteMember(_, user) => c.(members := c.members - {user})
    case DeleteGroupMember(_, user) => LeftGroup(c, user, remaining)
    case SetConverted(_, user, toPublic) => Converted(c, user, toPublic)
    case SetKind(_, kind) => c.(kind := kind)
    case SetArchived(_) => c.(archived := true)
    case _ => c
  }

  function WithoutMember(c: Chan, ws: Workspace, user: User): Chan {
    if c.ws == ws && !IsDm(c.kind) then c.(members := c.members - {user}) else c
  }

  function Perform(cs: Chans, w: Write, remaining: seq<User>): Chans {
    match w
    case Nothing => cs
    case InsertChannel(ws, private, isDefault, creator) => cs + [NewChannel(ws, private, isDefault, creator)]
    case InsertDm(ws, ids) => if NoDup(ids) then cs + [NewDm(ws, ids)] else cs
    case DeleteMemberships(ws, user) => seq(|cs|, i requires 0 <= i < |cs| => WithoutMember(cs[i], ws, user))
    case _ => if w.ch < |cs| then cs[w.ch := Rewritten(cs[w.ch], w, remaining)] else cs
  }

  // ---------- what the database answered ----------

  /** The answers a request got while deciding. */
  ghost predicate Read(cs: Chans, op: Op, a: Answer) {
    match op
    case CreateDm(ws, me, others) => Looked(cs, ws, ComputeDMHash(Dedupe(others + [me])), a.found)
    case AddMember(ch, _, _) => ch < |cs| ==> Lists(a.members, cs[ch].members.Keys)
    case _ => true
  }

  /** The ids a departure re-read inside its transaction. */
  predicate ReadBack(cs: Chans, w: Write, remaining: seq<User>) {
    w.DeleteGroupMember? && w.ch < |cs| ==> Lists(remaining, cs[w.ch].members.Keys - {w.user})
  }

  ghost predicate Answered(cs: Chans, op: Op, a: Answer) {
    Read(cs, op, a) && ReadBack(cs, Decide(cs, op, a), a.remaining)
  }

  /** A request that nothing interrupts. */
  function Apply(cs: Chans, op: Op, a: Answer): Chans {
    Perform(cs, Decide(cs, op, a), a.remaining)
  }

  /** cs' is what the uninterrupted request can make of cs. */
  ghost predicate Applied(cs: Chans, op: Op, cs': Chans) {
    exists a: Answer :: Answered(cs, op, a) && cs' == Apply(cs, op, a)
  }

  // ---------- list facts ----------

  lemma {:induction false} DedupeMeaning(ids: seq<User>)
    ensures NoDup(Dedupe(ids)) && forall u :: u in Dedupe(ids) <==> u in ids
  {
    if ids == [] {
    } else {
      DedupeMeaning(ids[..|ids| - 1]);
      assert ids == ids[..|ids| - 1] + [ids[|ids| - 1]];
    }
  }

  lemma ListsPlus(ids: seq<User>, users: set<User>, u: User)
    requires u !in users
    ensures Lists(ids + [u], users + {u}) <==> Lists(ids, users)
  {
    assert multiset(users + {u}) == multiset(users) + multiset{u};
    assert multiset(ids + [u]) == multiset(ids) + multiset{u};
    assert (multiset(ids) + multiset{u}) - multiset{u} == multiset(ids);
    assert (multiset(users) + multiset{u}) - multiset{u} == multiset(users);
  }

  lemma NoDupSnoc(front: seq<User>, last: User)
    requires NoDup(front + [last])
    ensures NoDup(front) && last !in front && (set u | u in front + [last]) == (set u | u in front) + {last}
  {
    var ids := front + [last];
    assert forall i :: 0 <= i < |front| ==> ids[i] == front[i];
    assert ids[|front|] == last;
  }

  lemma {:induction false} NoDupLists(ids: seq<User>)
    requires NoDup(ids)
    ensures Lists(ids, set u | u in ids) && |set u | u in ids| == |ids|
  {
    if ids == [] {
    } else {
      var front, last := ids[..|ids| - 1], ids[|ids| - 1];
      assert ids == front + [last];
      NoDupSnoc(front, last);
      NoDupLists(front);
      ListsPlus(front, (set u | u in front), last);
    }
  }

  lemma ListOfValidIds(ids: seq<User>, users: set<User>)
    requires Lists(ids, users) && forall u :: u in users ==> ValidId(u)
    ensures ValidIds(ids)
  {
    ListOfSet(ids, users);
    assert forall i :: 0 <= i < |ids| ==> ids[i] in users;
  }

  // ---------- when a write keeps type and hash right ----------

  lemma NewDmIsOk(ws: Workspace, ids: seq<User>)
    requires NoDup(ids) && ValidIds(ids) && |ids| >= 2
    ensures ChanOk(NewDm(ws, ids)) && NewDm(ws, ids).members.Keys == set u | u in ids
  {
    var c := NewDm(ws, ids);
    assert c.members.Keys == set u | u in ids;
    NoDupLists(ids);
    HashOfList(ids, c.members.Keys);
  }

  /** A member row added or deleted without touching the hash: harmless exactly when
      the channel is no DM. */
  lemma OtherMembersNeedAnotherHash(c: Chan, members: map<User, Member>)
    requires ChanOk(c) && members.Keys != c.members.Keys && forall u :: u in members.Keys ==> ValidId(u)
    ensures ChanOk(c.(members := members)) <==> !IsDm(c.kind)
  {
    if HashOfSet(members.Keys) == HashOfSet(c.members.Keys) {
      HashOfSetIsInjective(members.Keys, c.members.Keys);
    }
  }

  lemma HashOfLongerList(keys: set<User>, user: User, current: seq<User>)
    requires user !in keys && ValidId(user) && ValidIds(current) && forall u :: u in keys ==> ValidId(u)
    ensures ComputeDMHash(current + [user]) == HashOfSet(keys + {user}) <==> Lists(current, keys)
    ensures Lists(current, keys) ==> |current| == |keys|
  {
    HashIdentifiesSet(current + [user], keys + {user});
    ListsPlus(current, keys, user);
    if Lists(current, keys) {
      ListOfSet(current, keys);
    }
  }

  /** AddMemberToDM, on whatever the channel has become, keeps type and hash right
      exactly when the list its caller read is the membership at the time of the
      insert (and the channel has members and is not the default one). */
  lemma AddToDmNeedsFreshList(c: Chan, user: User, current: seq<User>)
    requires ChanOk(c) && user !in c.members && ValidId(user) && ValidIds(current)
    ensures ChanOk(AddedToDm(c, user, current)) <==>
              Lists(current, c.members.Keys) && c.members.Keys != {} && !c.isDefault
  {
    var after, keys := AddedToDm(c, user, current), c.members.Keys;
    assert after.members.Keys == keys + {user};
    assert |keys + {user}| == |keys| + 1;
    HashOfLongerList(keys, user, current);
  }

  /** LeaveGroupDM, on whatever the channel has become, keeps type and hash right
      exactly when at least two members remain (and it is not the default channel).
      It turns the channel into a dm exactly when two remain. */
  lemma LeaveNeedsThreeMembers(c: Chan, user: User, remaining: seq<User>)
    requires ChanOk(c) && user in c.members && Lists(remaining, c.members.Keys - {user})
    ensures ChanOk(LeftGroup(c, user, remaining)) <==> |c.members.Keys| >= 3 && !c.isDefault
    ensures LeftGroup(c, user, remaining).kind == Dm <==> |c.members.Keys| == 3
  {
    var rest := c.members.Keys - {user};
    assert LeftGroup(c, user, remaining).members.Keys == rest;
    ListOfSet(remaining, rest);
    HashOfList(remaining, rest);
  }

  /** Writing back a type read earlier keeps the invariant exactly when it is still a
      right one: unchanged where a DM is involved, public on the default channel. */
  lemma WritingBackTheType(c: Chan, read: Kind)
    requires ChanOk(c)
    ensures ChanOk(c.(kind := read)) <==>
              (IsDm(c.kind) || IsDm(read) ==> read == c.kind) && (c.isDefault ==> read == Public)
  {}

  /** What the write relies on is still so. */
  predicate Right(c: Chan, w: Write) {
    match w
    case InsertMember(_, user, _) => user in c.members || !IsDm(c.kind)
    case InsertOrReset(_, user) => user in c.members || !IsDm(c.kind)
    case InsertDmMember(_, user, current) =>
      user in c.members || (Lists(current, c.members.Keys) && c.members.Keys != {} && !c.isDefault)
    case DeleteMember(_, user) => user !in c.members || !IsDm(c.kind)
    case DeleteGroupMember(_, user) => user !in c.members || (|c.members.Keys| >= 3 && !c.isDefault)
    case SetConverted(_, _, toPublic) => c.isDefault ==> toPublic
    case SetKind(_, kind) => (IsDm(c.kind) || IsDm(kind) ==> kind == c.kind) && (c.isDefault ==> kind == Public)
    case _ => true
  }

  predicate Fresh(cs: Chans, w: Write) {
    match w
    case Nothing => true
    case InsertChannel(_, _, _, _) => true
    case InsertDm(_, _) => true
    case DeleteMemberships(_, _) => true
    case _ => w.ch < |cs| ==> Right(cs[w.ch], w)
  }

  /** The ids in a write are proper ids, and a DM is for two users or more. */
  predicate Typed(w: Write) {
    match w
    case InsertChannel(_, _, _, creator) => ValidId(creator)
    case InsertDm(_, ids) => ValidIds(ids) && |ids| >= 2
    case InsertMember(_, user, _) => ValidId(user)
    case InsertOrReset(_, user) => ValidId(user)
    case InsertDmMember(_, user, current) => ValidId(user) && ValidIds(current)
    case _ => true
  }

  lemma AddedIsOkIffRight(c: Chan, user: User, role: Option<Role>)
    requires ChanOk(c) && ValidId(user)
    ensures ChanOk(Added(c, user, role)) <==> user in c.members || !IsDm(c.kind)
    ensures ChanOk(Joined(c, user)) <==> user in c.members || !IsDm(c.kind)
  {
    if user in c.members {
      assert Joined(c, user).members.Keys == c.members.Keys;
    } else {
      OtherMembersNeedAnotherHash(c, c.members[user := FreshMember(role)]);
      OtherMembersNeedAnotherHash(c, c.members[user := FreshMember(Some(Poster))]);
    }
  }

  lemma DeletedIsOkIffRight(c: Chan, user: User)
    requires ChanOk(c)
    ensures ChanOk(c.(members := c.members - {user})) <==> user !in c.members || !IsDm(c.kind)
  {
    if user in c.members {
      OtherMembersNeedAnotherHash(c, c.members - {user});
    } else {
      assert c.members - {user} == c.members;
    }
  }

  lemma ConvertedIsOkIffRight(c: Chan, user: User, toPublic: bool)
    requires ChanOk(c)
    ensures ChanOk(Converted(c, user, toPublic)) <==> (c.isDefault ==> toPublic)
  {
    assert Converted(c, user, toPublic).members.Keys == c.members.Keys;
  }

  lemma RewrittenIsOkIffRight(c: Chan, w: Write, remaining: seq<User>)
    requires ChanOk(c) && Typed(w)
    requires w.DeleteGroupMember? ==> Lists(remaining, c.members.Keys - {w.user})
    ensures ChanOk(Rewritten(c, w, remaining)) <==> Right(c, w)
  {
    match w
    case InsertMember(_, user, role) => AddedIsOkIffRight(c, user, role);
    case InsertOrReset(_, user) => AddedIsOkIffRight(c, user, None);
    case InsertDmMember(_, user, current) =>
      if user !in c.members {
        AddToDmNeedsFreshList(c, user, current);
      }
    case DeleteMember(_, user) => DeletedIsOkIffRight(c, user);
    case DeleteGroupMember(_, user) =>
      if user in c.members {
        LeaveNeedsThreeMembers(c, user, remaining);
      }
    case SetConverted(_, user, toPublic) => ConvertedIsOkIffRight(c, user, toPublic);
    case SetKind(_, kind) => WritingBackTheType(c, kind);
    case _ =>
  }

  lemma InsertKeepsInv(cs: Chans, c: Chan)
    requires Inv(cs)
    ensures Inv(cs + [c]) <==> ChanOk(c)
  {
    assert (cs + [c])[|cs|] == c;
  }

  lemma UpdateKeepsInv(cs: Chans, ch: ChannelId, c: Chan)
    requires Inv(cs) && ch < |cs|
    ensures Inv(cs[ch := c]) <==> ChanOk(c)
  {
    assert cs[ch := c][ch] == c;
  }

  /** One write, however long ago it was decided, keeps the invariant exactly when it
      is fresh. */
  lemma WriteKeepsInvIffFresh(cs: Chans, w: Write, remaining: seq<User>)
    requires Inv(cs) && Typed(w) && ReadBack(cs, w, remaining)
    ensures Inv(Perform(cs, w, remaining)) <==> Fresh(cs, w)
  {
    match w
    case Nothing =>
    case InsertChannel(ws, private, isDefault, creator) =>
      InsertKeepsInv(cs, NewChannel(ws, private, isDefault, creator));
    case InsertDm(ws, ids) =>
      if NoDup(ids) {
        NewDmIsOk(ws, ids);
        InsertKeepsInv(cs, NewDm(ws, ids));
      }
    case DeleteMemberships(ws, user) =>
      forall i | 0 <= i < |cs|
        ensures ChanOk(WithoutMember(cs[i], ws, user))
      {
        DeletedIsOkIffRight(cs[i], user);
      }
    case _ =>
      if w.ch < |cs| {
        RewrittenIsOkIffRight(cs[w.ch], w, remaining);
        UpdateKeepsInv(cs, w.ch, Rewritten(cs[w.ch], w, remaining));
      }
  }

  // ---------- requests that nothing interrupts ----------

  lemma DecidedNowIsFresh(cs: Chans, op: Op, a: Answer)
    requires Inv(cs) && IdsValid(op) && Read(cs, op, a)
    ensures Typed(Decide(cs, op, a)) && Fresh(cs, Decide(cs, op, a))
  {
    match op
    case CreateDm(ws, me, others) => DedupedIdsAreValid(me, others);
    case AddMember(ch, user, _) =>
      if ch < |cs| {
        ListOfSet(a.members, cs[ch].members.Keys);
        ListOfValidIds(a.members, cs[ch].members.Keys);
      }
    case _ =>
  }

  lemma DedupedIdsAreValid(me: User, others: seq<User>)
    requires ValidId(me) && ValidIds(others)
    ensures ValidIds(Dedupe(others + [me])) && NoDup(Dedupe(others + [me]))
  {
    var all, ids := others + [me], Dedupe(others + [me]);
    DedupeMeaning(all);
    forall i | 0 <= i < |ids|
      ensures ValidId(ids[i])
    {
      assert ids[i] in all;
    }
  }

  lemma ApplyKeepsInv(cs: Chans, op: Op, a: Answer)
    requires Inv(cs) && IdsValid(op) && Answered(cs, op, a)
    ensures Inv(Apply(cs, op, a))
  {
    DecidedNowIsFresh(cs, op, a);
    WriteKeepsInvIffFresh(cs, Decide(cs, op, a), a.remaining);
  }

  datatype Request = Request(op: Op, answer: Answer)

  function Run(cs: Chans, reqs: seq<Request>): Chans
    decreases |reqs|
  {
    if reqs == [] then cs else Run(Apply(cs, reqs[0].op, reqs[0].answer), reqs[1..])
  }

  ghost predicate AllAnswered(cs: Chans, reqs: seq<Request>)
    decreases |reqs|
  {
    reqs == [] ||
    (IdsValid(reqs[0].op) && Answered(cs, reqs[0].op, reqs[0].answer) &&
     AllAnswered(Apply(cs, reqs[0].op, reqs[0].answer), reqs[1..]))
  }

  /** In every state that uninterrupted requests reach, a channel is a dm exactly when
      it is a DM with two members, a group_dm with three or more, DMs carry the hash
      of exactly their current members, and public and private channels carry none. */
  lemma {:induction false} RunKeepsInv(cs: Chans, reqs: seq<Request>)
    requires Inv(cs) && AllAnswered(cs, reqs)
    ensures Inv(Run(cs, reqs))
    decreases |reqs|
  {
    if reqs == [] {
    } else {
      ApplyKeepsInv(cs, reqs[0].op, reqs[0].answer);
      RunKeepsInv(Apply(cs, reqs[0].op, reqs[0].answer), reqs[1..]);
    }
  }

  // ---------- requests that interleave ----------

  datatype State = State(chans: Chans, pending: map<RequestId, Write>)

  /** A request may read in one moment and decide, or read in several statements and so
      have decided on any write with proper ids. */
  datatype Step =
    | Begin(r: RequestId, op: Op, answer: Answer)
    | BeginSplit(r: RequestId, write: Write)
    | Commit(r: RequestId, remaining: seq<User>)

  function Next(s: State, step: Step): State {
    match step
    case Begin(r, op, a) => s.(pending := s.pending[r := Decide(s.chans, op, a)])
    case BeginSplit(r, w) => s.(pending := s.pending[r := w])
    case Commit(r, remaining) =>
      if r in s.pending then State(Perform(s.chans, s.pending[r], remaining), s.pending - {r}) else s
  }

  function Interleave(s: State, steps: seq<Step>): State
    decreases |steps|
  {
    if steps == [] then s else Interleave(Next(s, steps[0]), steps[1..])
  }

  /** The step got the answers the database gives in s. */
  ghost predicate Possible(s: State, step: Step) {
    match step
    case Begin(_, op, a) => IdsValid(op) && Read(s.chans, op, a)
    case BeginSplit(_, w) => Typed(w)
    case Commit(r, remaining) => r in s.pending ==> ReadBack(s.chans, s.pending[r], remaining)
  }

  ghost predicate AllPossible(s: State, steps: seq<Step>)
    decreases |steps|
  {
    steps == [] || (Possible(s, steps[0]) && AllPossible(Next(s, steps[0]), steps[1..]))
  }

  predicate FreshStep(s: State, step: Step) {
    step.Commit? && step.r in s.pending ==> Fresh(s.chans, s.pending[step.r])
  }

  predicate AllFresh(s: State, steps: seq<Step>)
    decreases |steps|
  {
    steps == [] || (FreshStep(s, steps[0]) && AllFresh(Next(s, steps[0]), steps[1..]))
  }

  predicate PendingTyped(s: State) {
    forall r :: r in s.pending ==> Typed(s.pending[r])
  }

  /** The invariant holds now and after every further step. */
  ghost predicate AlwaysInv(s: State, steps: seq<Step>)
    decreases |steps|
  {
    Inv(s.chans) && (steps == [] || AlwaysInv(Next(s, steps[0]), steps[1..]))
  }

  lemma StepKeepsInvIffFresh(s: State, step: Step)
    requires Inv(s.chans) && PendingTyped(s) && Possible(s, step)
    ensures Inv(Next(s, step).chans) <==> FreshStep(s, step)
    ensures PendingTyped(Next(s, step))
  {
    match step
    case Begin(_, op, a) => DecidedNowIsFresh(s.chans, op, a);
    case BeginSplit(_, _) =>
    case Commit(r, remaining) =>
      if r in s.pending {
        WriteKeepsInvIffFresh(s.chans, s.pending[r], remaining);
      }
  }

  /** Over every interleaved run the invariant holds at every moment exactly when each
      write is fresh at the moment it is made. */
  lemma {:induction false} AlwaysInvIffAllFresh(s: State, steps: seq<Step>)
    requires Inv(s.chans) && PendingTyped(s) && AllPossible(s, steps)
    ensures AlwaysInv(s, steps) <==> AllFresh(s, steps)
    decreases |steps|
  {
    if steps == [] {
    } else {
      var t := Next(s, steps[0]);
      StepKeepsInvIffFresh(s, steps[0]);
      if FreshStep(s, steps[0]) {
        AlwaysInvIffAllFresh(t, steps[1..]);
      } else {
        assert !Inv(t.chans);
      }
    }
  }

  // ---------- what goes wrong between read and write ----------

  lemma Unroll(s: State, step: Step, rest: seq<Step>)
    ensures AllPossible(s, [step] + rest) <==> Possible(s, step) && AllPossible(Next(s, step), rest)
    ensures AlwaysInv(s, [step] + rest) <==> Inv(s.chans) && AlwaysInv(Next(s, step), rest)
  {
    assert ([step] + rest)[1..] == rest;
  }

  lemma SecondLeaveLeavesOne(c: Chan, x: User, y: User, z: User)
    requires c.members.Keys == {x, y, z} && x != y && y != z && x != z
    ensures var one := LeftGroup(c, x, [y, z]);
            one.members.Keys == {y, z} && LeftGroup(one, y, [z]).members.Keys == {z} && !ChanOk(LeftGroup(one, y, [z]))
  {
    var one := LeftGroup(c, x, [y, z]);
    assert one.members.Keys == {y, z};
    assert LeftGroup(one, y, [z]).members.Keys == {z};
  }

  /** After four possible steps the invariant holds only if it held at the end. */
  lemma FourSteps(s0: State, a: Step, s1: State, b: Step, s2: State, c: Step, s3: State, d: Step)
    requires Next(s0, a) == s1 && Next(s1, b) == s2 && Next(s2, c) == s3
    requires Possible(s0, a) && Possible(s1, b) && Possible(s2, c) && Possible(s3, d)
    ensures AllPossible(s0, [a] + ([b] + ([c] + [d])))
    ensures AlwaysInv(s0, [a] + ([b] + ([c] + [d]))) ==> Inv(Next(s3, d).chans)
  {
    assert [d] + [] == [d];
    Unroll(s3, d, []);
    Unroll(s2, c, [d]);
    Unroll(s1, b, [c] + [d]);
    Unroll(s0, a, [b] + ([c] + [d]));
  }

  /** Both requests read the channel, then both write. */
  function TwoLeaves(ch: ChannelId, x: User, y: User, z: User): seq<Step> {
    var none := Answer([], None, []);
    [Begin(0, Leave(ch, x), none)] +
    ([Begin(1, Leave(ch, y), none)] + ([Commit(0, [y, z])] + [Commit(1, [z])]))
  }

  lemma BothDecideToLeaveTheGroup(cs: Chans, ch: ChannelId, x: User, y: User)
    requires ch < |cs| && cs[ch].kind == GroupDm && !cs[ch].isDefault
    ensures var none, first, second := Answer([], None, []), DeleteGroupMember(ch, x), DeleteGroupMember(ch, y);
            Next(State(cs, map[]), Begin(0, Leave(ch, x), none)) == State(cs, map[0 := first]) &&
            Next(State(cs, map[0 := first]), Begin(1, Leave(ch, y), none)) == State(cs, map[0 := first, 1 := second])
  {}

  lemma DropFirst(first: Write, second: Write)
    ensures map[0 := first, 1 := second] - {0} == map[1 := second]
  {}

  lemma FirstLeaveCommits(cs: Chans, ch: ChannelId, x: User, y: User, z: User)
    requires ch < |cs| && cs[ch].members.Keys == {x, y, z} && x != y && y != z && x != z
    ensures var s := State(cs, map[0 := DeleteGroupMember(ch, x), 1 := DeleteGroupMember(ch, y)]);
            Possible(s, Commit(0, [y, z])) &&
            Next(s, Commit(0, [y, z]))
            == State(cs[ch := LeftGroup(cs[ch], x, [y, z])], map[1 := DeleteGroupMember(ch, y)])
  {
    var w := DeleteGroupMember(ch, x);
    assert {x, y, z} - {x} == {y, z};
    DropFirst(w, DeleteGroupMember(ch, y));
    assert Perform(cs, w, [y, z]) == cs[ch := LeftGroup(cs[ch], x, [y, z])];
  }

  lemma SecondLeaveIsPossible(cs: Chans, ch: ChannelId, y: User, z: User)
    requires ch < |cs| && cs[ch].members.Keys == {y, z} && y != z
    ensures Possible(State(cs, map[1 := DeleteGroupMember(ch, y)]), Commit(1, [z]))
  {
    assert {y, z} - {y} == {z};
  }

  lemma SecondLeaveCommits(cs: Chans, ch: ChannelId, y: User, z: User)
    requires ch < |cs| && !ChanOk(LeftGroup(cs[ch], y, [z]))
    ensures !Inv(Next(State(cs, map[1 := DeleteGroupMember(ch, y)]), Commit(1, [z])).chans)
  {
    var t := Next(State(cs, map[1 := DeleteGroupMember(ch, y)]), Commit(1, [z]));
    assert t.chans[ch] == LeftGroup(cs[ch], y, [z]);
  }

  lemma SecondLeaveBreaks(cs: Chans, ch: ChannelId, x: User, y: User, z: User)
    requires ch < |cs| && cs[ch].members.Keys == {x, y, z} && x != y && y != z && x != z
    ensures var s := State(cs[ch := LeftGroup(cs[ch], x, [y, z])], map[1 := DeleteGroupMember(ch, y)]);
            Possible(s, Commit(1, [z])) && !Inv(Next(s, Commit(1, [z])).chans)
  {
    SecondLeaveLeavesOne(cs[ch], x, y, z);
    SecondLeaveIsPossible(cs[ch := LeftGroup(cs[ch], x, [y, z])], ch, y, z);
    SecondLeaveCommits(cs[ch := LeftGroup(cs[ch], x, [y, z])], ch, y, z);
  }

  /** Two members of a three-member group DM leave at once: both read "group_dm", and
      the second leaves one member in it. */
  lemma TwoLeavesFromOneRead(cs: Chans, ch: ChannelId, x: User, y: User, z: User)
    requires ch < |cs| && cs[ch].kind == GroupDm && !cs[ch].isDefault && cs[ch].members.Keys == {x, y, z}
    requires x != y && y != z && x != z
    ensures AllPossible(State(cs, map[]), TwoLeaves(ch, x, y, z))
    ensures !AlwaysInv(State(cs, map[]), TwoLeaves(ch, x, y, z))
  {
    var none := Answer([], None, []);
    var first, second := DeleteGroupMember(ch, x), DeleteGroupMember(ch, y);
    var s3 := State(cs[ch := LeftGroup(cs[ch], x, [y, z])], map[1 := second]);
    BothDecideToLeaveTheGroup(cs, ch, x, y);
    FirstLeaveCommits(cs, ch, x, y, z);
    SecondLeaveBreaks(cs, ch, x, y, z);
    FourSteps(State(cs, map[]), Begin(0, Leave(ch, x), none), State(cs, map[0 := first]), Begin(1, Leave(ch, y), none),
              State(cs, map[0 := first, 1 := second]), Commit(0, [y, z]), s3, Commit(1, [z]));
  }

  /** Two additions that read the same membership leave a wrong hash. */
  lemma TwoAddsFromOneRead(c: Chan, x: User, y: User, current: seq<User>)
    requires ChanOk(c) && IsDm(c.kind) && Lists(current, c.members.Keys)
    requires x != y && x !in c.members && y !in c.members && ValidId(x) && ValidId(y)
    ensures ChanOk(AddedToDm(c, x, current)) && !ChanOk(AddedToDm(AddedToDm(c, x, current), y, current))
  {
    var one := AddedToDm(c, x, current);
    ListOfSet(current, c.members.Keys);
    ListOfValidIds(current, c.members.Keys);
    AddToDmNeedsFreshList(c, x, current);
    AddToDmNeedsFreshList(one, y, current);
    if Lists(current, one.members.Keys) {
      ListOfSet(current, one.members.Keys);
    }
  }

  /** An addition decided before the group DM was converted to a channel makes it a
      group DM again; type and hash agree, but the conversion is undone. */
  lemma StaleAddUndoesConversion(c: Chan, user: User, toPublic: bool, x: User, current: seq<User>)
    requires ChanOk(c) && c.kind == GroupDm && user in c.members && Lists(current, c.members.Keys)
    requires x !in c.members && ValidId(x)
    ensures var after := AddedToDm(Converted(c, user, toPublic), x, current); ChanOk(after) && after.kind == GroupDm
  {
    var converted := Converted(c, user, toPublic);
    assert converted.members.Keys == c.members.Keys;
    ConvertedIsOkIffRight(c, user, toPublic);
    ListOfSet(current, c.members.Keys);
    ListOfValidIds(current, c.members.Keys);
    AddToDmNeedsFreshList(converted, x, current);
  }

  /** So does a departure decided before. */
  lemma StaleLeaveUndoesConversion(c: Chan, user: User, toPublic: bool, x: User, remaining: seq<User>)
    requires ChanOk(c) && c.kind == GroupDm && user in c.members && x in c.members
    requires Lists(remaining, c.members.Keys - {x})
    ensures var after := LeftGroup(Converted(c, user, toPublic), x, remaining); ChanOk(after) && IsDm(after.kind)
  {
    var converted := Converted(c, user, toPublic);
    assert converted.members.Keys == c.members.Keys;
    ConvertedIsOkIffRight(c, user, toPublic);
    LeaveNeedsThreeMembers(converted, x, remaining);
  }

  /** An edit of a three-member group DM's description that was read before a member
      left marks the remaining pair as a group DM. */
  lemma StaleEditAfterLeave(c: Chan, user: User, remaining: seq<User>)
    requires ChanOk(c) && c.kind == GroupDm && |c.members.Keys| == 3 && user in c.members
    requires Lists(remaining, c.members.Keys - {user})
    ensures ChanOk(LeftGroup(c, user, remaining)) && !ChanOk(LeftGroup(c, user, remaining).(kind := c.kind))
  {
    LeaveNeedsThreeMembers(c, user, remaining);
    WritingBackTheType(LeftGroup(c, user, remaining), c.kind);
  }
}
