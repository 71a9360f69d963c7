/** The channel repository and the request handlers that call it
    (server/internal/channel/repository.go, server/internal/handler/channel.go). */
module ChannelStore {
  import opened Common
  import opened DmHash
  import opened Channels
  import opened DirectMessages

  datatype Outcome = Ok | NotFound | NotMember | AlreadyMember | CannotLeave | CannotLeaveDefault | Rejected

  const NO_ANSWER := Answer([], None, [])

  /** The first i ids are distinct and have their member rows. */
  ghost predicate MembersSoFar(ids: seq<User>, i: nat, members: map<User, Member>)
    requires i <= |ids|
  {
    NoDup(ids[..i]) && members == map u | u in ids[..i] :: FreshMember(Some(Poster))
  }

  lemma MembersStep(ids: seq<User>, i: nat, members: map<User, Member>)
    requires i < |ids| && MembersSoFar(ids, i, members)
    ensures if ids[i] in members then !NoDup(ids)
            else MembersSoFar(ids, i + 1, members[ids[i] := FreshMember(Some(Poster))])
  {
    assert ids[..i + 1] == ids[..i] + [ids[i]];
    if ids[i] in members {
      var j :| 0 <= j < i && ids[..i][j] == ids[i];
      assert ids[j] == ids[i];
    }
  }

  lemma MembersEnd(ws: Workspace, ids: seq<User>, members: map<User, Member>)
    requires MembersSoFar(ids, |ids|, members)
    ensures NoDup(ids) && members == NewDm(ws, ids).members
  {
    assert ids[..|ids|] == ids;
  }

  /** cs has the user in the channel, where before had one member less. */
  predicate Gained(before: Chans, cs: Chans, ch: ChannelId, user: User)
    requires ch < |before| && ch < |cs|
  {
    user in cs[ch].members && |cs[ch].members.Keys| == |before[ch].members.Keys| + 1
  }

  /** What an uninterrupted addition makes of a DM and of any other channel. */
  lemma AddToDmApplied(cs: Chans, ch: ChannelId, user: User, role: Option<Role>, current: seq<User>)
    requires Inv(cs) && ValidId(user) && ch < |cs| && IsDm(cs[ch].kind) && Lists(current, cs[ch].members.Keys)
    ensures var after := if |current| >= DM_LIMIT then cs else Perform(cs, InsertDmMember(ch, user, current), []);
            Inv(after) && Applied(cs, Channels.AddMember(ch, user, role), after)
  {
    var op, a := Channels.AddMember(ch, user, role), Answer(current, None, []);
    assert Answered(cs, op, a);
    ApplyKeepsInv(cs, op, a);
  }

  lemma AddToDmGains(cs: Chans, ch: ChannelId, user: User, current: seq<User>)
    requires ch < |cs|
    ensures var after := Perform(cs, InsertDmMember(ch, user, current), []);
            |after| == |cs| && (user !in cs[ch].members ==> Gained(cs, after, ch, user))
  {}

  lemma AddToChannelApplied(cs: Chans, ch: ChannelId, user: User, role: Option<Role>)
    requires Inv(cs) && ValidId(user) && (ch < |cs| ==> !IsDm(cs[ch].kind))
    ensures var after := if ch >= |cs| || cs[ch].archived then cs else Perform(cs, InsertMember(ch, user, role), []);
            Inv(after) && Applied(cs, Channels.AddMember(ch, user, role), after) && |after| == |cs| &&
            (ch < |cs| && !cs[ch].archived && user !in cs[ch].members ==> Gained(cs, after, ch, user))
  {
    var op := Channels.AddMember(ch, user, role);
    var a := NO_ANSWER;
    if ch < |cs| {
      var listed := SetHasAList(cs[ch].members.Keys);
      a := Answer(listed, None, []);
    }
    assert Answered(cs, op, a);
    ApplyKeepsInv(cs, op, a);
  }

  /** Only channel ch changed, and there only what c says. */
  predicate OnlyChanged(before: Chans, after: Chans, ch: ChannelId, c: Chan) {
    ch < |before| && after == before[ch := c]
  }

  class Repository {
    var chans: Chans

    ghost predicate Valid()
      reads this
    {
      Inv(chans)
    }

    constructor ()
      ensures Valid() && chans == []
    {
      chans := [];
    }

    /** The ids of a channel's members, in any order. */
    method GetMemberUserIDs(ch: ChannelId) returns (ids: seq<User>)
      requires ch < |chans|
      ensures Lists(ids, chans[ch].members.Keys)
    {
      ids := [];
      var left := chans[ch].members.Keys;
      ghost var done: set<User> := {};
      while left != {}
        invariant Lists(ids, done) && done !! left && done + left == chans[ch].members.Keys
        decreases |left|
      {
        var u :| u in left;
        ListsPlus(ids, done, u);
        ids := ids + [u];
        done := done + {u};
        left := left - {u};
      }
    }

    // ---------- creating ----------

    /** Any channel of the workspace with the hash. */
    method FindDM(ws: Workspace, hash: Digest) returns (found: Option<ChannelId>)
      ensures Looked(chans, ws, hash, found)
    {
      for i := 0 to |chans|
        invariant forall j :: 0 <= j < i ==> chans[j].ws != ws || chans[j].hash != Some(hash)
      {
        if chans[i].ws == ws && chans[i].hash == Some(hash) {
          return Some(i);
        }
      }
      found := None;
    }

    /** The transaction of CreateDM: it rolls back on a repeated user. */
    method InsertDM(ws: Workspace, userIDs: seq<User>) returns (r: Option<ChannelId>)
      modifies this
      ensures chans == Perform(old(chans), InsertDm(ws, userIDs), [])
      ensures r == if NoDup(userIDs) then Some(|old(chans)|) else None
    {
      var kind := Dm;
      if |userIDs| > 2 {
        kind := GroupDm;
      }
      var members: map<User, Member> := map[];
      for i := 0 to |userIDs|
        invariant MembersSoFar(userIDs, i, members) && chans == old(chans)
      {
        MembersStep(userIDs, i, members);
        if userIDs[i] in members {
          return None;
        }
        members := members[userIDs[i] := FreshMember(Some(Poster))];
      }
      MembersEnd(ws, userIDs, members);
      chans := chans + [Chan(ws, kind, Some(ComputeDMHash(userIDs)), false, false, members)];
      r := Some(|chans| - 1);
    }

    method CreateDM(ws: Workspace, userIDs: seq<User>) returns (r: Option<ChannelId>, ghost found: Option<ChannelId>)
      modifies this
      ensures Looked(old(chans), ws, ComputeDMHash(userIDs), found)
      ensures (chans, r) == CreatedDm(old(chans), ws, userIDs, found)
    {
      var existing := FindDM(ws, ComputeDMHash(userIDs));
      found := existing;
      if existing.Some? {
        return existing, existing;
      }
      r := InsertDM(ws, userIDs);
    }

    /** The dedupe loop of the CreateDM request. */
    static method DropDuplicates(userIDs: seq<User>) returns (deduped: seq<User>)
      ensures deduped == Dedupe(userIDs)
    {
      var unique: set<User> := {};
      deduped := [];
      for i := 0 to |userIDs|
        invariant deduped == Dedupe(userIDs[..i])
        invariant forall u :: u in unique <==> u in deduped
      {
        assert userIDs[..i + 1][..i] == userIDs[..i];
        if userIDs[i] !in unique {
          unique := unique + {userIDs[i]};
          deduped := deduped + [userIDs[i]];
        }
      }
      assert userIDs[..|userIDs|] == userIDs;
    }

    /** The CreateDM request: include the caller, drop duplicates, refuse fewer
        than two participants. */
    method CreateDMRequest(ws: Workspace, me: User, others: seq<User>) returns (r: Option<ChannelId>)
      requires Valid() && ValidId(me) && ValidIds(others)
      modifies this
      ensures Valid() && Applied(old(chans), CreateDm(ws, me, others), chans)
      ensures r.None? <==> forall u :: u in others ==> u == me
      ensures r.Some? ==> r.value < |chans| && DmFor(chans[r.value], ws, (set u | u in others) + {me})
      ensures r.Some? ==>
                |chans| == |old(chans)| + if HasDm(old(chans), ws, (set u | u in others) + {me}) then 0 else 1
      ensures old(chans) <= chans && (r.None? ==> chans == old(chans))
    {
      ghost var before := chans;
      var deduped := DropDuplicates(others + [me]);
      TwoParticipants(me, others);
      DedupedIdsAreValid(me, others);
      ghost var found: Option<ChannelId>;
      if |deduped| < 2 {
        r := None;
        found := SomeLookup(ws, ComputeDMHash(deduped));
      } else {
        r, found := CreateDM(ws, deduped);
        RequestFindsTheSet(before, ws, me, others, found);
      }
      ghost var a := Answer([], found, []);
      assert Answered(before, CreateDm(ws, me, others), a);
      assert chans == Apply(before, CreateDm(ws, me, others), a);
      ApplyKeepsInv(before, CreateDm(ws, me, others), a);
    }

    ghost method SomeLookup(ws: Workspace, hash: Digest) returns (found: Option<ChannelId>)
      ensures Looked(chans, ws, hash, found)
    {
      if i :| 0 <= i < |chans| && chans[i].ws == ws && chans[i].hash == Some(hash) {
        found := Some(i);
      } else {
        found := None;
      }
    }

    /** autoCreateDMs: a DM between the user who joined and each of the first five
        other members. */
    method AutoCreateDMs(ws: Workspace, joining: User, members: seq<User>) returns (created: nat)
      requires Valid() && ValidId(joining) && ValidIds(members)
      modifies this
      ensures Valid() && old(chans) <= chans
      ensures created == |First(Others(members, joining), MAX_AUTO_DMS)| <= 5
      ensures forall u :: u in First(Others(members, joining), MAX_AUTO_DMS) ==> HasDm(chans, ws, {joining, u})
      ensures var others := Count(members, (u: User) => u != joining); created == if others < 5 then others else 5
      ensures forall i :: 0 <= i < |members| && members[i] != joining &&
                          Count(members[..i], (u: User) => u != joining) < 5 ==>
                HasDm(chans, ws, {joining, members[i]})
    {
      ghost var before := chans;
      created := 0;
      assert members[..|members|] == members;
      var i := 0;
      while i < |members|
        invariant 0 <= i <= |members| && Valid() && before <= chans
        invariant created == |Others(members[..i], joining)| <= MAX_AUTO_DMS
        invariant forall u :: u in Others(members[..i], joining) ==> HasDm(chans, ws, {joining, u})
      {
        if created >= MAX_AUTO_DMS {
          break;
        }
        assert members[..i + 1][..i] == members[..i];
        if members[i] != joining {
          ghost var prior := chans;
          CreatePair(ws, joining, members[i]);
          created := created + 1;
        }
        i := i + 1;
      }
      OthersPrefix(members, i, joining);
      OthersAreCounted(members, joining);
      FirstOthers(members, joining);
    }

    method CreatePair(ws: Workspace, a: User, b: User)
      requires Valid() && ValidId(a) && ValidId(b) && a != b
      modifies this
      ensures Valid() && old(chans) <= chans && HasDm(chans, ws, {a, b})
    {
      ghost var before := chans;
      var dm, found := CreateDM(ws, [a, b]);
      PairFindsDm(before, ws, a, b, found);
      if found.None? {
        NewDmIsOk(ws, [a, b]);
        InsertKeepsInv(before, NewDm(ws, [a, b]));
      }
    }

    /** The CreateChannel request, with the creator as channel admin. */
    method CreateChannel(ws: Workspace, private: bool, creator: User) returns (ch: ChannelId)
      requires Valid() && ValidId(creator)
      modifies this
      ensures Valid() && Applied(old(chans), Channels.CreateChannel(ws, private, false, creator), chans)
      ensures chans == Perform(old(chans), InsertChannel(ws, private, false, creator), [])
      ensures ch == |old(chans)| && chans == old(chans) + [chans[ch]]
      ensures chans[ch].ws == ws && chans[ch].kind == (if private then Private else Public) && !chans[ch].archived
      ensures chans[ch].members == map[creator := Member(Some(Admin), None)]
    {
      var kind := Public;
      if private {
        kind := Private;
      }
      ch := |chans|;
      assert Answered(chans, Channels.CreateChannel(ws, private, false, creator), NO_ANSWER);
      chans := chans + [Chan(ws, kind, None, false, false, map[creator := FreshMember(Some(Admin))])];
    }

    // ---------- adding ----------

    /** AddMemberToDM, with the member list its caller read. */
    method AddMemberToDM(ch: ChannelId, user: User, current: seq<User>) returns (r: Outcome)
      requires ch < |chans|
      modifies this
      ensures chans == Perform(old(chans), InsertDmMember(ch, user, current), [])
      ensures r == if user in old(chans)[ch].members then AlreadyMember else Ok
      ensures |chans| == |old(chans)| && (r == AlreadyMember ==> chans == old(chans))
      ensures r == Ok ==> chans[ch].members == old(chans)[ch].members[user := Member(Some(Poster), None)]
    {
      if user in chans[ch].members {
        return AlreadyMember;
      }
      var allMemberIDs := current + [user];
      var newHash := ComputeDMHash(allMemberIDs);
      var newType := Dm;
      if |allMemberIDs| >= 3 {
        newType := GroupDm;
      }
      chans := chans[ch := chans[ch].(members := chans[ch].members[user := FreshMember(Some(Poster))])];
      chans := chans[ch := chans[ch].(kind := newType, hash := Some(newHash))];
      r := Ok;
    }

    /** AddMember; read is the channel row it fetched first. */
    method AddMember(read: Chan, ch: ChannelId, user: User, role: Option<Role>) returns (r: Outcome)
      requires ch < |chans|
      modifies this
      ensures chans == Perform(old(chans), if read.archived then Nothing else InsertMember(ch, user, role), [])
      ensures r == if read.archived then Rejected else if user in old(chans)[ch].members then AlreadyMember else Ok
      ensures if r != Ok then chans == old(chans)
              else var c := old(chans)[ch];
                   OnlyChanged(old(chans), chans, ch, c.(members := c.members[user := Member(role, None)]))
    {
      if read.archived {
        return Rejected;
      }
      if user in chans[ch].members {
        return AlreadyMember;
      }
      chans := chans[ch := chans[ch].(members := chans[ch].members[user := FreshMember(role)])];
      r := Ok;
    }

    /** The AddChannelMember request, from its type switch on. */
    method AddChannelMember(ch: ChannelId, user: User, role: Option<Role>) returns (r: Outcome)
      requires Valid() && ValidId(user)
      modifies this
      ensures Valid() && Applied(old(chans), Channels.AddMember(ch, user, role), chans)
      ensures |chans| == |old(chans)| && (ch < |chans| && r == Ok ==> Gained(old(chans), chans, ch, user))
      ensures r == NotFound <==> ch >= |old(chans)|
      ensures ch < |old(chans)| ==>
                var c := old(chans)[ch];
                var full := if c.kind == Dm || c.kind == GroupDm then |c.members.Keys| >= 8 else c.archived;
                (r == Rejected <==> full) && (r == AlreadyMember <==> !full && user in c.members) &&
                (r == Ok <==> !full && user !in c.members) &&
                (r == Ok ==>
                   chans[ch].members
                   == c.members[user := Member(if c.kind == Dm || c.kind == GroupDm then Some(Poster) else role, None)])
      ensures r != Ok ==> chans == old(chans)
    {
      if ch >= |chans| {
        AddToChannelApplied(chans, ch, user, role);
        r := NotFound;
      } else {
        var c := chans[ch];
        if IsDm(c.kind) {
          var current := GetMemberUserIDs(ch);
          AddToDmApplied(chans, ch, user, role, current);
          AddToDmGains(chans, ch, user, current);
          if |current| >= DM_LIMIT {
            r := Rejected;
          } else {
            r := AddMemberToDM(ch, user, current);
          }
        } else {
          AddToChannelApplied(chans, ch, user, role);
          r := AddMember(c, ch, user, role);
        }
      }
    }

    /** The JoinChannel request: public channels only. */
    method JoinChannel(ch: ChannelId, user: User) returns (r: Outcome)
      requires Valid() && ValidId(user)
      modifies this
      ensures Valid() && Applied(old(chans), Join(ch, user), chans)
      ensures r == NotFound <==> ch >= |old(chans)|
      ensures r == Rejected <==> ch < |old(chans)| && (old(chans)[ch].kind != Public || old(chans)[ch].archived)
      ensures r == Ok || r == NotFound || r == Rejected
      ensures if r != Ok then chans == old(chans)
              else var c := old(chans)[ch];
                   var read := if user in c.members then c.members[user].lastRead else None;
                   OnlyChanged(old(chans), chans, ch, c.(members := c.members[user := Member(Some(Poster), read)]))
    {
      ghost var before, op := chans, Join(ch, user);
      assert Answered(before, op, NO_ANSWER);
      ApplyKeepsInv(before, op, NO_ANSWER);
      if ch >= |chans| {
        return NotFound;
      }
      if chans[ch].kind != Public {
        return Rejected;
      }
      r := AddMember(chans[ch], ch, user, Some(Poster));
      if r == AlreadyMember {
        var m := chans[ch].members[user];
        chans := chans[ch := chans[ch].(members := chans[ch].members[user := m.(role := Some(Poster))])];
        r := Ok;
      }
    }

    // ---------- leaving ----------

    /** LeaveGroupDM: one transaction, which does not look at the channel's type. */
    method LeaveGroupDM(ch: ChannelId, user: User) returns (r: Outcome, ghost remaining: seq<User>)
      requires ch < |chans|
      modifies this
      ensures ReadBack(old(chans), DeleteGroupMember(ch, user), remaining)
      ensures chans == Perform(old(chans), DeleteGroupMember(ch, user), remaining)
      ensures r == (if user in old(chans)[ch].members then Ok else NotMember)
    {
      ghost var c := chans[ch];
      if user !in chans[ch].members {
        remaining := SetHasAList(c.members.Keys - {user});
        return NotMember, remaining;
      }
      chans := chans[ch := chans[ch].(members := chans[ch].members - {user})];
      assert chans[ch].members.Keys == c.members.Keys - {user};
      var remainingIDs := GetMemberUserIDs(ch);
      remaining := remainingIDs;
      var newHash := ComputeDMHash(remainingIDs);
      var newType := GroupDm;
      if |remainingIDs| == 2 {
        newType := Dm;
      }
      chans := chans[ch := chans[ch].(kind := newType, hash := Some(newHash))];
      r := Ok;
    }

    /** RemoveMember; read is the channel row it fetched first, which may be out of
        date. The invariant survives exactly when the write is still right. */
    method RemoveMember(read: Chan, ch: ChannelId, user: User) returns (r: Outcome, ghost remaining: seq<User>)
      requires ch < |chans|
      modifies this
      ensures ReadBack(old(chans), RemovalOf(read, ch, user), remaining)
      ensures chans == Perform(old(chans), RemovalOf(read, ch, user), remaining)
      ensures r == if read.kind == Dm then CannotLeave
                   else if read.isDefault then CannotLeaveDefault
                   else if user !in old(chans)[ch].members then NotMember
                   else Ok
      ensures |chans| == |old(chans)| && (r != Ok ==> chans == old(chans))
      ensures r == Ok ==> chans[ch].members == old(chans)[ch].members - {user} &&
                          (read.kind != GroupDm ==> chans[ch].kind == old(chans)[ch].kind)
      ensures old(Valid()) ==> (Valid() <==> Fresh(old(chans), RemovalOf(read, ch, user)))
    {
      ghost var before := chans;
      remaining := SetHasAList(chans[ch].members.Keys - {user});
      if read.kind == Dm {
        r := CannotLeave;
      } else if read.isDefault {
        r := CannotLeaveDefault;
      } else if read.kind == GroupDm {
        r, remaining := LeaveGroupDM(ch, user);
      } else if user !in chans[ch].members {
        assert chans[ch].members - {user} == chans[ch].members;
        assert chans[ch := chans[ch].(members := chans[ch].members - {user})] == chans;
        r := NotMember;
      } else {
        chans := chans[ch := chans[ch].(members := chans[ch].members - {user})];
        r := Ok;
      }
      if Inv(before) {
        WriteKeepsInvIffFresh(before, RemovalOf(read, ch, user), remaining);
      }
    }

    /** The LeaveChannel request, uninterrupted. */
    method LeaveChannel(ch: ChannelId, user: User) returns (r: Outcome)
      requires Valid()
      modifies this
      ensures Valid() && Applied(old(chans), Leave(ch, user), chans)
      ensures r == NotFound <==> ch >= |old(chans)|
      ensures ch < |old(chans)| ==>
                var c := old(chans)[ch];
                (r == CannotLeave <==> c.kind == Dm) && (r == CannotLeaveDefault <==> c.kind != Dm && c.isDefault) &&
                (r == NotMember <==> c.kind != Dm && !c.isDefault && user !in c.members) &&
                (r == Ok <==> c.kind != Dm && !c.isDefault && user in c.members) &&
                |chans| == |old(chans)| && (r == Ok ==> chans[ch].members == c.members - {user}) &&
                (r == Ok && c.kind != GroupDm ==> chans[ch].kind == c.kind)
      ensures r != Ok ==> chans == old(chans)
    {
      ghost var before, op := chans, Leave(ch, user);
      ghost var remaining: seq<User> := [];
      if ch >= |chans| {
        r := NotFound;
      } else {
        r, remaining := RemoveMember(chans[ch], ch, user);
      }
      ghost var a := Answer([], None, remaining);
      assert Answered(before, op, a) && chans == Apply(before, op, a);
      ApplyKeepsInv(before, op, a);
    }

    /** The channels RemoveAllNonDMMemberships reports. */
    method NonDMMemberships(ws: Workspace, user: User) returns (left: seq<ChannelId>)
      ensures forall ch: ChannelId :: ch in left <==>
                ch < |chans| && chans[ch].ws == ws && !IsDm(chans[ch].kind) && user in chans[ch].members
    {
      left := [];
      for i := 0 to |chans|
        invariant forall ch: ChannelId :: ch in left <==>
                    ch < i && chans[ch].ws == ws && !IsDm(chans[ch].kind) && user in chans[ch].members
      {
        if chans[i].ws == ws && !IsDm(chans[i].kind) && user in chans[i].members {
          left := left + [i];
        }
      }
    }

    /** RemoveAllNonDMMemberships: the channels left, and the rows deleted. */
    method RemoveAllNonDMMemberships(ws: Workspace, user: User) returns (left: seq<ChannelId>)
      requires Valid()
      modifies this
      ensures Valid() && Applied(old(chans), LeaveWorkspace(ws, user), chans)
      ensures chans == Perform(old(chans), DeleteMemberships(ws, user), [])
      ensures forall ch: ChannelId :: ch in left <==>
                ch < |old(chans)| && old(chans)[ch].ws == ws && !IsDm(old(chans)[ch].kind) &&
                user in old(chans)[ch].members
      ensures |chans| == |old(chans)|
      ensures forall ch :: 0 <= ch < |chans| ==>
                var c := old(chans)[ch];
                chans[ch] == if c.ws == ws && c.kind != Dm && c.kind != GroupDm then c.(members := c.members - {user})
                             else c
    {
      ghost var before := chans;
      assert Answered(chans, LeaveWorkspace(ws, user), NO_ANSWER);
      WriteKeepsInvIffFresh(chans, DeleteMemberships(ws, user), []);
      left := NonDMMemberships(ws, user);
      for i := 0 to |chans|
        invariant |chans| == |before|
        invariant forall j :: i <= j < |chans| ==> chans[j] == before[j]
        invariant forall j :: 0 <= j < i ==> chans[j] == WithoutMember(before[j], ws, user)
      {
        var c := chans[i];
        if c.ws == ws && !IsDm(c.kind) {
          chans := chans[i := c.(members := c.members - {user})];
        }
      }
    }

    // ---------- changing the channel ----------

    /** ConvertToChannel: one transaction, which does not look at the channel's type. */
    method ConvertToChannel(ch: ChannelId, user: User, toPublic: bool)
      requires ch < |chans|
      modifies this
      ensures chans == Perform(old(chans), SetConverted(ch, user, toPublic), [])
    {
      var kind := Private;
      if toPublic {
        kind := Public;
      }
      chans := chans[ch := chans[ch].(kind := kind, hash := None)];
      if user in chans[ch].members {
        var m := chans[ch].members[user];
        chans := chans[ch := chans[ch].(members := chans[ch].members[user := m.(role := Some(Admin))])];
      }
    }

    /** The ConvertGroupDMToChannel request, uninterrupted. */
    method ConvertGroupDMToChannel(ch: ChannelId, user: User, toPublic: bool) returns (r: Outcome)
      requires Valid()
      modifies this
      ensures Valid() && Applied(old(chans), Convert(ch, user, toPublic), chans)
      ensures r == NotFound <==> ch >= |old(chans)|
      ensures r == Ok <==>
                ch < |old(chans)| && old(chans)[ch].kind == GroupDm && user in old(chans)[ch].members
      ensures r == Ok || r == NotFound || r == Rejected
      ensures if r != Ok then chans == old(chans)
              else var c := old(chans)[ch];
                   OnlyChanged(old(chans), chans, ch,
                     c.(kind := if toPublic then Public else Private, hash := None,
                        members := c.members[user := Member(Some(Admin), c.members[user].lastRead)]))
    {
      ghost var op := Convert(ch, user, toPublic);
      assert Answered(chans, op, NO_ANSWER);
      ApplyKeepsInv(chans, op, NO_ANSWER);
      if ch >= |chans| {
        return NotFound;
      }
      if chans[ch].kind != GroupDm || user !in chans[ch].members {
        return Rejected;
      }
      ConvertToChannel(ch, user, toPublic);
      r := Ok;
    }

    /** The type part of the UpdateChannel request, uninterrupted. Without a new type
        it writes back the one it read. */
    method UpdateChannel(ch: ChannelId, newType: Option<Kind>) returns (r: Outcome)
      requires Valid()
      modifies this
      ensures Valid() && Applied(old(chans), Edit(ch, newType), chans)
      ensures r == NotFound <==> ch >= |old(chans)|
      ensures r == Rejected <==>
                ch < |old(chans)| && newType.Some? &&
                (newType.value == Dm || newType.value == GroupDm || old(chans)[ch].kind == Dm ||
                 old(chans)[ch].kind == GroupDm || (old(chans)[ch].isDefault && newType.value == Private))
      ensures r == Ok || r == NotFound || r == Rejected
      ensures if r == Ok && newType.Some?
              then OnlyChanged(old(chans), chans, ch, old(chans)[ch].(kind := newType.value))
              else chans == old(chans)
    {
      ghost var op := Edit(ch, newType);
      assert Answered(chans, op, NO_ANSWER);
      ApplyKeepsInv(chans, op, NO_ANSWER);
      if ch >= |chans| {
        return NotFound;
      }
      var kind := chans[ch].kind;
      if newType.Some? {
        if newType.value != Public && newType.value != Private {
          return Rejected;
        }
        if kind == Dm || kind == GroupDm {
          return Rejected;
        }
        if chans[ch].isDefault && newType.value == Private {
          return Rejected;
        }
        kind := newType.value;
      }
      chans := chans[ch := chans[ch].(kind := kind)];
      r := Ok;
    }

    /** The ArchiveChannel request. */
    method ArchiveChannel(ch: ChannelId) returns (r: Outcome)
      requires Valid()
      modifies this
      ensures Valid() && Applied(old(chans), Archive(ch), chans)
      ensures r == Ok <==> chans != old(chans)
      ensures r == Rejected <==>
                ch < |old(chans)| &&
                (old(chans)[ch].kind == Dm || old(chans)[ch].kind == GroupDm || old(chans)[ch].isDefault)
      ensures r == NotFound <==> ch >= |old(chans)| || (r != Rejected && old(chans)[ch].archived)
      ensures r == Ok || r == NotFound || r == Rejected
      ensures r == Ok ==> OnlyChanged(old(chans), chans, ch, old(chans)[ch].(archived := true))
    {
      ghost var op := Archive(ch);
      assert Answered(chans, op, NO_ANSWER);
      ApplyKeepsInv(chans, op, NO_ANSWER);
      if ch >= |chans| {
        return NotFound;
      }
      if chans[ch].kind == Dm || chans[ch].kind == GroupDm || chans[ch].isDefault {
        return Rejected;
      }
      if chans[ch].archived {
        assert chans[ch := chans[ch].(archived := true)] == chans;
        return NotFound;
      }
      chans := chans[ch := chans[ch].(archived := true)];
      assert chans[ch].archived && !old(chans)[ch].archived;
      r := Ok;
    }
  }
}
