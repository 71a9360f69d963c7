/** Who is in a channel, in which role, and what kind of channel it is, after any write
    and over interleaved runs (server/internal/channel/repository.go). */
module Memberships {
  import opened Common
  import opened DmHash
  import opened Channels

  predicate IsMember(cs: Chans, ch: ChannelId, user: User) {
    ch < |cs| && user in cs[ch].members
  }

  /** Anything but a DM or group DM. */
  predicate Ordinary(c: Chan) {
    c.kind == Public || c.kind == Private
  }

  // ---------- one write ----------

  /** The write puts the user into the channel. */
  predicate Puts(cs: Chans, w: Write, ch: ChannelId, user: User) {
    match w
    case InsertChannel(_, _, _, creator) => ch == |cs| && user == creator
    case InsertDm(_, ids) => ch == |cs| && user in ids && forall i, j :: 0 <= i < j < |ids| ==> ids[i] != ids[j]
    case InsertMember(c, u, _) => ch == c < |cs| && user == u
    case InsertOrReset(c, u) => ch == c < |cs| && user == u
    case InsertDmMember(c, u, _) => ch == c < |cs| && user == u
    case _ => false
  }

  /** The write takes the user out of the channel. */
  predicate Takes(cs: Chans, w: Write, ch: ChannelId, user: User) {
    match w
    case DeleteMember(c, u) => ch == c && user == u
    case DeleteGroupMember(c, u) => ch == c && user == u
    case DeleteMemberships(ws, u) => user == u && ch < |cs| && cs[ch].ws == ws && Ordinary(cs[ch])
    case _ => false
  }

  lemma MemberAfterIff(cs: Chans, w: Write, remaining: seq<User>, ch: ChannelId, user: User)
    ensures IsMember(Perform(cs, w, remaining), ch, user)
       <==> Puts(cs, w, ch, user) || (IsMember(cs, ch, user) && !Takes(cs, w, ch, user))
  {}

  /** A membership row is new - with the role its write gives - or keeps its read
      position, and its role unless the user joins again or converts the channel. */
  lemma RoleAfter(cs: Chans, w: Write, remaining: seq<User>, ch: ChannelId, user: User)
    requires IsMember(Perform(cs, w, remaining), ch, user)
    ensures var row := Perform(cs, w, remaining)[ch].members[user];
            if IsMember(cs, ch, user) then
              row.lastRead == cs[ch].members[user].lastRead &&
              row.role == if w == InsertOrReset(ch, user) then Some(Poster)
                          else if w.SetConverted? && w.ch == ch && w.user == user then Some(Admin)
                          else cs[ch].members[user].role
            else
              row.lastRead == None &&
              row.role == if w.InsertChannel? then Some(Admin)
                          else if w.InsertMember? then w.role
                          else Some(Poster)
  {
    MemberAfterIff(cs, w, remaining, ch, user);
  }

  /** The channels' own columns: what a new channel starts with, and which writes change
      the type, the hash and the archived flag of an old one. */
  lemma ColumnsAfter(cs: Chans, w: Write, remaining: seq<User>, ch: ChannelId)
    requires ch < |Perform(cs, w, remaining)|
    ensures var c := Perform(cs, w, remaining)[ch];
            if ch >= |cs| then
              ch == |cs| && !c.archived && (w.InsertChannel? || w.InsertDm?) && c.ws == w.ws &&
              c.isDefault == (w.InsertChannel? && w.isDefault) &&
              c.kind == (if w.InsertChannel? then if w.private && !w.isDefault then Private else Public
                         else if |w.ids| >= 3 then GroupDm else Dm) &&
              c.hash == if w.InsertChannel? then None else Some(ComputeDMHash(w.ids))
            else
              c.ws == cs[ch].ws && c.isDefault == cs[ch].isDefault &&
              c.archived == (cs[ch].archived || w == SetArchived(ch)) &&
              c.kind == (match w
                         case SetKind(x, kind) => if x == ch then kind else cs[ch].kind
                         case SetConverted(x, _, public) =>
                           if x != ch then cs[ch].kind else if public then Public else Private
                         case InsertDmMember(x, u, current) =>
                           if x != ch || u in cs[ch].members then cs[ch].kind
                           else if |current| >= 2 then GroupDm else Dm
                         case DeleteGroupMember(x, u) =>
                           if x != ch || u !in cs[ch].members then cs[ch].kind
                           else if |remaining| == 2 then Dm else GroupDm
                         case _ => cs[ch].kind) &&
              c.hash == (match w
                         case SetConverted(x, _, _) => if x == ch then None else cs[ch].hash
                         case InsertDmMember(x, u, current) =>
                           if x != ch || u in cs[ch].members then cs[ch].hash
                           else Some(ComputeDMHash(current + [u]))
                         case DeleteGroupMember(x, u) =>
                           if x != ch || u !in cs[ch].members then cs[ch].hash
                           else Some(ComputeDMHash(remaining))
                         case _ => cs[ch].hash)
  {}

  // ---------- over interleaved runs ----------

  /** No write made during the run does this. */
  ghost predicate Never(s: State, steps: seq<Step>, what: (Chans, Write) -> bool)
    decreases |steps|
  {
    steps == [] ||
    ((steps[0].Commit? && steps[0].r in s.pending ==> !what(s.chans, s.pending[steps[0].r])) &&
     Never(Next(s, steps[0]), steps[1..], what))
  }

  /** A member stays one until some write takes them out of that channel, however the
      requests interleave. */
  lemma {:induction false} MembersStay(s: State, steps: seq<Step>, ch: ChannelId, user: User)
    requires IsMember(s.chans, ch, user)
    requires Never(s, steps, (cs: Chans, w: Write) => Takes(cs, w, ch, user))
    ensures IsMember(Interleave(s, steps).chans, ch, user)
    decreases |steps|
  {
    if steps == [] {
    } else {
      if steps[0].Commit? && steps[0].r in s.pending {
        MemberAfterIff(s.chans, s.pending[steps[0].r], steps[0].remaining, ch, user);
      }
      MembersStay(Next(s, steps[0]), steps[1..], ch, user);
    }
  }

  /** And whoever is not in a channel stays out until some write puts them into it. */
  lemma {:induction false} OthersStayOut(s: State, steps: seq<Step>, ch: ChannelId, user: User)
    requires !IsMember(s.chans, ch, user)
    requires Never(s, steps, (cs: Chans, w: Write) => Puts(cs, w, ch, user))
    ensures !IsMember(Interleave(s, steps).chans, ch, user)
    decreases |steps|
  {
    if steps == [] {
    } else {
      if steps[0].Commit? && steps[0].r in s.pending {
        MemberAfterIff(s.chans, s.pending[steps[0].r], steps[0].remaining, ch, user);
      }
      OthersStayOut(Next(s, steps[0]), steps[1..], ch, user);
    }
  }

  // ---------- leaving a workspace ----------

  /** The user is in no ordinary channel of the workspace. */
  predicate OutOf(cs: Chans, ws: Workspace, user: User) {
    forall ch :: 0 <= ch < |cs| && cs[ch].ws == ws && Ordinary(cs[ch]) ==> user !in cs[ch].members
  }

  /** The write lets a user who is out in again: by creating, adding or joining, or by
      making an ordinary channel of a DM the user is in. */
  predicate LetsIn(cs: Chans, w: Write, ws: Workspace, user: User) {
    match w
    case InsertChannel(x, _, _, creator) => x == ws && creator == user
    case InsertMember(c, u, _) => u == user && c < |cs| && cs[c].ws == ws && Ordinary(cs[c])
    case InsertOrReset(c, u) => u == user && c < |cs| && cs[c].ws == ws && Ordinary(cs[c])
    case SetConverted(c, _, _) => c < |cs| && cs[c].ws == ws && user in cs[c].members
    case SetKind(c, kind) => c < |cs| && cs[c].ws == ws && user in cs[c].members && (kind == Public || kind == Private)
    case _ => false
  }

  /** The departure deletes exactly the user's rows in the workspace's ordinary
      channels, and with that the user is out. */
  lemma DepartureTakesOut(cs: Chans, ws: Workspace, user: User, remaining: seq<User>)
    ensures var after := Perform(cs, DeleteMemberships(ws, user), remaining);
            |after| == |cs| && OutOf(after, ws, user) &&
            forall ch :: 0 <= ch < |cs| ==>
              after[ch] == cs[ch].(members := after[ch].members) &&
              (forall u :: u in after[ch].members <==>
                 u in cs[ch].members && !(u == user && cs[ch].ws == ws && Ordinary(cs[ch]))) &&
              forall u :: u in after[ch].members ==> after[ch].members[u] == cs[ch].members[u]
  {}

  lemma StaysOutIff(cs: Chans, w: Write, remaining: seq<User>, ws: Workspace, user: User)
    requires OutOf(cs, ws, user)
    ensures OutOf(Perform(cs, w, remaining), ws, user) <==> !LetsIn(cs, w, ws, user)
  {
    var after := Perform(cs, w, remaining);
    if LetsIn(cs, w, ws, user) {
      var ch := if w.InsertChannel? then |cs| else w.ch;
      assert after[ch].ws == ws && Ordinary(after[ch]) && user in after[ch].members;
    } else {
      forall ch | 0 <= ch < |after| && after[ch].ws == ws && Ordinary(after[ch])
        ensures user !in after[ch].members
      {
        MemberAfterIff(cs, w, remaining, ch, user);
        ColumnsAfter(cs, w, remaining, ch);
      }
    }
  }

  ghost predicate AlwaysOut(s: State, steps: seq<Step>, ws: Workspace, user: User)
    decreases |steps|
  {
    OutOf(s.chans, ws, user) && (steps == [] || AlwaysOut(Next(s, steps[0]), steps[1..], ws, user))
  }

  /** From then on, over every interleaved run, the user stays out exactly as long as no
      write lets them in again. */
  lemma {:induction false} StaysOutUntilLetIn(s: State, steps: seq<Step>, ws: Workspace, user: User)
    requires OutOf(s.chans, ws, user)
    ensures AlwaysOut(s, steps, ws, user)
       <==> Never(s, steps, (cs: Chans, w: Write) => LetsIn(cs, w, ws, user))
    decreases |steps|
  {
    if steps == [] {
    } else {
      if steps[0].Commit? && steps[0].r in s.pending {
        StaysOutIff(s.chans, s.pending[steps[0].r], steps[0].remaining, ws, user);
      }
      if OutOf(Next(s, steps[0]).chans, ws, user) {
        StaysOutUntilLetIn(Next(s, steps[0]), steps[1..], ws, user);
      }
    }
  }
}
