/** Read positions and unread counts: UpdateLastRead, GetLatestMessageID,
    GetPreviousMessageID, ListForWorkspace and GetWorkspaceNotificationSummaries
    (server/internal/channel/repository.go) with the requests that move positions
    (server/internal/handler/channel.go, server/internal/handler/message.go). */
module Unread {
  import opened Common
  import opened Messages
  import opened Paging
  import Channels

  type Chan = Channels.Chan
  type Chans = Channels.Chans
  type Workspace = Channels.Workspace

  /** A position is NULL, the empty string (0) or an id. */
  type Position = Option<Id>

  predicate TopLive(m: Message, ch: Channel) {
    m.channel == ch && m.parent.None? && m.deletedAt.None?
  }

  predicate Past(m: Message, pos: Position) {
    pos.None? || m.id > pos.value
  }

  function UnreadIn(ch: Channel, pos: Position): Message -> bool {
    (m: Message) => TopLive(m, ch) && Past(m, pos)
  }

  function FromIdOn(ch: Channel, id: Id): Message -> bool {
    (m: Message) => TopLive(m, ch) && m.id >= id
  }

  function TopLiveIn(ch: Channel): Message -> bool {
    (m: Message) => TopLive(m, ch)
  }

  /** The highest matching id up to hi; 0 when there is none. */
  function LastAtMost(t: Table, p: Message -> bool, hi: nat): (id: Id)
    requires hi <= |t|
    ensures id <= hi && (id > 0 ==> p(t[id - 1]))
    ensures forall i :: id <= i < hi ==> !p(t[i])
  {
    if hi == 0 then 0 else if p(t[hi - 1]) then hi else LastAtMost(t, p, hi - 1)
  }

  function LatestMessageID(t: Table, ch: Channel): (id: Id)
    ensures id <= |t|
  {
    LastAtMost(t, TopLiveIn(ch), |t|)
  }

  function PreviousMessageID(t: Table, id: Id): Id
    requires Exists(t, id)
  {
    LastAtMost(t, TopLiveIn(t[id - 1].channel), id - 1)
  }

  // ---------- one channel ----------

  /** After "mark unread" on a message, exactly the live top-level messages from
      that one on are unread. */
  lemma MarkUnreadCounts(t: Table, id: Id)
    requires Dense(t) && Exists(t, id)
    ensures var ch := t[id - 1].channel;
            Count(t, UnreadIn(ch, Some(PreviousMessageID(t, id)))) == Count(t, FromIdOn(ch, id))
  {
    var ch := t[id - 1].channel;
    var prev := PreviousMessageID(t, id);
    forall i | 0 <= i < |t|
      ensures UnreadIn(ch, Some(prev))(t[i]) == FromIdOn(ch, id)(t[i])
    {
      assert t[i].id == i + 1;
      if prev <= i < id - 1 {
        assert !TopLiveIn(ch)(t[i]);
      }
    }
    CountAgree(t, t, UnreadIn(ch, Some(prev)), FromIdOn(ch, id));
  }

  /** The default "mark read": move to the latest live top-level message, or stay
      put when there is none. */
  function ReadPosition(t: Table, ch: Channel, pos: Position): Position {
    if LatestMessageID(t, ch) == 0 then pos else Some(LatestMessageID(t, ch))
  }

  lemma MarkReadClears(t: Table, ch: Channel, pos: Position)
    requires Dense(t)
    ensures Count(t, UnreadIn(ch, ReadPosition(t, ch, pos))) == 0
  {
    forall i | 0 <= i < |t|
      ensures !UnreadIn(ch, ReadPosition(t, ch, pos))(t[i])
    {
      assert t[i].id == i + 1;
      if LatestMessageID(t, ch) <= i {
        assert !TopLiveIn(ch)(t[i]);
      }
    }
    CountNone(t, UnreadIn(ch, ReadPosition(t, ch, pos)));
  }

  /** The position was not already beyond every existing message. */
  predicate PositionExists(t: Table, ch: Channel, pos: Position) {
    LatestMessageID(t, ch) != 0 || pos.None? || pos.value <= |t|
  }

  lemma UnreadIsSentSince(t: Table, ch: Channel, pos: Position, ops: seq<Op>)
    requires Inv(t) && PositionExists(t, ch, pos)
    ensures Count(Run(t, ops), UnreadIn(ch, ReadPosition(t, ch, pos))) == Count(Run(t, ops), FromIdOn(ch, |t| + 1))
  {
    var t' := Run(t, ops);
    var read := ReadPosition(t, ch, pos);
    RunExtends(t, ops);
    RunKeepsInv(t, ops);
    forall i | 0 <= i < |t'|
      ensures UnreadIn(ch, read)(t'[i]) == FromIdOn(ch, |t| + 1)(t'[i])
    {
      assert t'[i].id == i + 1;
      if i < |t| {
        assert SameKey(t[i], t'[i]);
        if LatestMessageID(t, ch) <= i {
          assert !TopLiveIn(ch)(t[i]);
        }
      }
    }
    CountAgree(t', t', UnreadIn(ch, read), FromIdOn(ch, |t| + 1));
  }

  /** After a default "mark read" the unread count is, through every later run of
      sends, edits, deletes and pins, the number of top-level messages sent since
      and still live - exactly when the stored position was NULL, empty or not
      beyond the existing ids, or the channel had a live top-level message. */
  lemma MarkReadTracksNewMessages(t: Table, ch: Channel, pos: Position)
    requires Inv(t)
    ensures (forall ops: seq<Op> ::
               Count(Run(t, ops), UnreadIn(ch, ReadPosition(t, ch, pos))) == Count(Run(t, ops), FromIdOn(ch, |t| + 1)))
       <==> PositionExists(t, ch, pos)
  {
    if PositionExists(t, ch, pos) {
      forall ops: seq<Op>
        ensures Count(Run(t, ops), UnreadIn(ch, ReadPosition(t, ch, pos))) == Count(Run(t, ops), FromIdOn(ch, |t| + 1))
      {
        UnreadIsSentSince(t, ch, pos, ops);
      }
    } else {
      var d := Draft(ch, None, "", [], None, false);
      var ops := [Create(d, 0)];
      var m := NewRow(|t| + 1, d, 0);
      assert Run(Apply(t, ops[0]), ops[1..]) == t + [m];
      MarkReadClears(t, ch, pos);
      CountAppend(t, m, UnreadIn(ch, pos));
      CountAppend(t, m, FromIdOn(ch, |t| + 1));
      assert Count(Run(t, ops), UnreadIn(ch, pos)) == 0;
      assert Count(Run(t, ops), FromIdOn(ch, |t| + 1)) > 0;
    }
  }

  // ---------- counts per channel and per workspace ----------

  /** notify_level, where a preference row exists. */
  type Level = string

  type Prefs = map<(User, Channel), Level>

  datatype Counts = Counts(unread: nat, notified: nat)

  predicate Mentions(user: User, m: Message) {
    user in m.mentions || "@channel" in m.mentions || "@everyone" in m.mentions
  }

  /** Whether an unread message also notifies: always in DMs, otherwise as the user's
      level for the channel says; an unknown level mutes. */
  predicate Notifies(kind: Channels.Kind, level: Option<Level>, user: User, m: Message) {
    if Channels.IsDm(kind) then true
    else if level.None? || level.value == "mentions" then Mentions(user, m)
    else level.value == "all"
  }

  function NotifiedIn(ch: Channel, pos: Position, kind: Channels.Kind, level: Option<Level>, user: User)
    : Message -> bool {
    (m: Message) => TopLive(m, ch) && Past(m, pos) && Notifies(kind, level, user, m)
  }

  /** The tables a count reads. */
  datatype Db = Db(chans: Chans, messages: Table, prefs: Prefs)

  function PositionOf(c: Chan, user: User): Position {
    if user in c.members then c.members[user].lastRead else None
  }

  function LevelOf(db: Db, ch: Channel, user: User): Option<Level> {
    if (user, ch) in db.prefs then Some(db.prefs[(user, ch)]) else None
  }

  function ChannelCounts(db: Db, ch: Channel, user: User): Counts
    requires ch < |db.chans|
  {
    var c := db.chans[ch];
    var pos := PositionOf(c, user);
    Counts(Count(db.messages, UnreadIn(ch, pos)),
           Count(db.messages, NotifiedIn(ch, pos, c.kind, LevelOf(db, ch, user), user)))
  }

  lemma NotifiedAtMostUnread(db: Db, ch: Channel, user: User)
    requires ch < |db.chans|
    ensures ChannelCounts(db, ch, user).notified <= ChannelCounts(db, ch, user).unread
  {
    var c := db.chans[ch];
    CountLe(db.messages, NotifiedIn(ch, PositionOf(c, user), c.kind, LevelOf(db, ch, user), user),
            UnreadIn(ch, PositionOf(c, user)));
  }

  datatype ListedChannel = ListedChannel(ch: Channel, isMember: bool, counts: Counts)

  predicate InListing(c: Chan, ws: Workspace, user: User) {
    c.ws == ws && !c.archived && (c.kind == Channels.Public || user in c.members)
  }

  /** What one channel contributes to ListForWorkspace. */
  function ListedRow(db: Db, ws: Workspace, user: User, ch: Channel): seq<ListedChannel>
    requires ch < |db.chans|
  {
    var c := db.chans[ch];
    if InListing(c, ws, user) then [ListedChannel(ch, user in c.members, ChannelCounts(db, ch, user))] else []
  }

  /** ListForWorkspace over the first n channels. */
  function Listing(db: Db, ws: Workspace, user: User, n: nat): seq<ListedChannel>
    requires n <= |db.chans|
  {
    if n == 0 then [] else Listing(db, ws, user, n - 1) + ListedRow(db, ws, user, n - 1)
  }

  function Add(a: Counts, b: Counts): Counts {
    Counts(a.unread + b.unread, a.notified + b.notified)
  }

  /** The sum over the listed channels the user belongs to. */
  function MemberSum(rows: seq<ListedChannel>): Counts {
    SumOfFirst(rows, |rows|)
  }

  function SumOfFirst(rows: seq<ListedChannel>, k: nat): Counts
    requires k <= |rows|
  {
    if k == 0 then Counts(0, 0)
    else if rows[k - 1].isMember then Add(SumOfFirst(rows, k - 1), rows[k - 1].counts)
    else SumOfFirst(rows, k - 1)
  }

  lemma {:induction false} SumOfPrefix(rows: seq<ListedChannel>, more: seq<ListedChannel>, k: nat)
    requires k <= |rows|
    ensures SumOfFirst(rows + more, k) == SumOfFirst(rows, k)
  {
    if k == 0 {
    } else {
      SumOfPrefix(rows, more, k - 1);
    }
  }

  lemma MemberSumSnoc(rows: seq<ListedChannel>, r: ListedChannel)
    ensures MemberSum(rows + [r]) == if r.isMember then Add(MemberSum(rows), r.counts) else MemberSum(rows)
  {
    SumOfPrefix(rows, [r], |rows|);
  }

  predicate Summarised(c: Chan, ws: Workspace, user: User) {
    c.ws == ws && !c.archived && user in c.members
  }

  function SummaryOf(m: map<Workspace, Counts>, ws: Workspace): Counts {
    if ws in m then m[ws] else Counts(0, 0)
  }

  /** A workspace appears in the summaries exactly when the user belongs to one of
      its open channels, with the sum of that user's ListForWorkspace counts. */
  ghost predicate SummariesMatch(db: Db, user: User, m: map<Workspace, Counts>, n: nat)
    requires n <= |db.chans|
  {
    forall ws: Workspace ::
      (ws in m <==> exists ch :: 0 <= ch < n && Summarised(db.chans[ch], ws, user)) &&
      SummaryOf(m, ws) == MemberSum(Listing(db, ws, user, n))
  }

  lemma ListingStep(db: Db, ws: Workspace, user: User, n: nat)
    requires n < |db.chans|
    ensures MemberSum(Listing(db, ws, user, n + 1))
         == if Summarised(db.chans[n], ws, user)
            then Add(MemberSum(Listing(db, ws, user, n)), ChannelCounts(db, n, user))
            else MemberSum(Listing(db, ws, user, n))
  {
    RowAdds(Listing(db, ws, user, n), db, ws, user, n);
  }

  lemma RowAdds(rows: seq<ListedChannel>, db: Db, ws: Workspace, user: User, n: nat)
    requires n < |db.chans|
    ensures MemberSum(rows + ListedRow(db, ws, user, n))
         == if Summarised(db.chans[n], ws, user) then Add(MemberSum(rows), ChannelCounts(db, n, user))
            else MemberSum(rows)
  {
    var c := db.chans[n];
    if InListing(c, ws, user) {
      MemberSumSnoc(rows, ListedChannel(n, user in c.members, ChannelCounts(db, n, user)));
    } else {
      assert rows + [] == rows;
    }
  }

  /** The same sum, channel by channel. */
  function Total(db: Db, ws: Workspace, user: User, n: nat): Counts
    requires n <= |db.chans|
  {
    if n == 0 then Counts(0, 0)
    else
      var sum := Total(db, ws, user, n - 1);
      if Summarised(db.chans[n - 1], ws, user) then Add(sum, ChannelCounts(db, n - 1, user)) else sum
  }

  lemma {:induction false} ListingTotals(db: Db, ws: Workspace, user: User, n: nat)
    requires n <= |db.chans|
    ensures MemberSum(Listing(db, ws, user, n)) == Total(db, ws, user, n)
  {
    if n == 0 {
    } else {
      ListingTotals(db, ws, user, n - 1);
      RowAdds(Listing(db, ws, user, n - 1), db, ws, user, n - 1);
    }
  }

  lemma {:induction false} TotalNotifiedAtMostUnread(db: Db, ws: Workspace, user: User, n: nat)
    requires n <= |db.chans|
    ensures Total(db, ws, user, n).notified <= Total(db, ws, user, n).unread
  {
    if n == 0 {
    } else {
      TotalNotifiedAtMostUnread(db, ws, user, n - 1);
      NotifiedAtMostUnread(db, n - 1, user);
    }
  }

  lemma SumNotifiedAtMostUnread(db: Db, ws: Workspace, user: User, n: nat)
    requires n <= |db.chans|
    ensures MemberSum(Listing(db, ws, user, n)).notified <= MemberSum(Listing(db, ws, user, n)).unread
  {
    ListingTotals(db, ws, user, n);
    TotalNotifiedAtMostUnread(db, ws, user, n);
  }

  /** The grouping by workspace, one channel further. */
  function WithRow(db: Db, user: User, m: map<Workspace, Counts>, n: nat): map<Workspace, Counts>
    requires n < |db.chans|
  {
    var c := db.chans[n];
    if !c.archived && user in c.members then m[c.ws := Add(SummaryOf(m, c.ws), ChannelCounts(db, n, user))] else m
  }

  lemma GroupStep(db: Db, user: User, m: map<Workspace, Counts>, n: nat, ws: Workspace)
    requires n < |db.chans| && SummariesMatch(db, user, m, n)
    ensures (exists ch :: 0 <= ch < n + 1 && Summarised(db.chans[ch], ws, user))
       <==> ws in m || Summarised(db.chans[n], ws, user)
    ensures MemberSum(Listing(db, ws, user, n + 1))
         == if Summarised(db.chans[n], ws, user) then Add(SummaryOf(m, ws), ChannelCounts(db, n, user))
            else SummaryOf(m, ws)
  {
    ListingStep(db, ws, user, n);
    assert SummaryOf(m, ws) == MemberSum(Listing(db, ws, user, n));
  }

  lemma GroupRow(db: Db, user: User, m: map<Workspace, Counts>, n: nat)
    requires n < |db.chans| && SummariesMatch(db, user, m, n)
    ensures SummariesMatch(db, user, WithRow(db, user, m, n), n + 1)
  {
    forall ws: Workspace
      ensures ws in WithRow(db, user, m, n) <==> exists ch :: 0 <= ch < n + 1 && Summarised(db.chans[ch], ws, user)
      ensures SummaryOf(WithRow(db, user, m, n), ws) == MemberSum(Listing(db, ws, user, n + 1))
    {
      GroupStep(db, user, m, n, ws);
    }
  }

  // ---------- the two queries ----------

  /** The counts of ListForWorkspace, which joins the membership only if there is one. */
  method ListedCounts(db: Db, ch: Channel, user: User) returns (counts: Counts)
    requires ch < |db.chans|
    ensures counts == ChannelCounts(db, ch, user)
  {
    var c, t := db.chans[ch], db.messages;
    var cm := if user in c.members then Some(c.members[user]) else None;
    var np := LevelOf(db, ch, user);
    ghost var unreadIn := UnreadIn(ch, PositionOf(c, user));
    ghost var notifiedIn := NotifiedIn(ch, PositionOf(c, user), c.kind, np, user);
    var unread, notified := 0, 0;
    for i := 0 to |t|
      invariant unread == Count(t[..i], unreadIn) && notified == Count(t[..i], notifiedIn)
    {
      var m := t[i];
      var isNew := cm.None? || cm.value.lastRead.None? || m.id > cm.value.lastRead.value;
      if m.channel == ch && m.parent.None? && m.deletedAt.None? && isNew {
        unread := unread + 1;
        var notifies := false;
        if c.kind == Channels.Dm || c.kind == Channels.GroupDm {
          notifies := true;
        } else if np == Some("none") {
          notifies := false;
        } else if np == Some("all") {
          notifies := true;
        } else if np == Some("mentions") || np.None? {
          notifies := user in m.mentions || "@channel" in m.mentions || "@everyone" in m.mentions;
        }
        if notifies {
          notified := notified + 1;
        }
      }
      OneRowFurther(t, i, unreadIn, notifiedIn);
    }
    assert t[..|t|] == t;
    counts := Counts(unread, notified);
  }

  /** The counts of the summary query, which has a membership row. */
  method SummedCounts(db: Db, ch: Channel, user: User) returns (counts: Counts)
    requires ch < |db.chans| && user in db.chans[ch].members
    ensures counts == ChannelCounts(db, ch, user)
  {
    var c, t, lastRead := db.chans[ch], db.messages, db.chans[ch].members[user].lastRead;
    var level := LevelOf(db, ch, user);
    ghost var unreadIn, notifiedIn := UnreadIn(ch, lastRead), NotifiedIn(ch, lastRead, c.kind, level, user);
    var unread := 0;
    for i := 0 to |t|
      invariant unread == Count(t[..i], unreadIn)
    {
      if t[i].channel == ch && t[i].parent.None? && t[i].deletedAt.None? &&
         (lastRead.None? || t[i].id > lastRead.value) {
        unread := unread + 1;
      }
      OneRowFurther(t, i, unreadIn, notifiedIn);
    }
    var notified := 0;
    for i := 0 to |t|
      invariant notified == Count(t[..i], notifiedIn)
    {
      if t[i].channel == ch && t[i].parent.None? && t[i].deletedAt.None? &&
         (lastRead.None? || t[i].id > lastRead.value) {
        var notifies := SummaryCase(c.kind, level, user, t[i]);
        notified := if notifies then notified + 1 else notified;
      }
      OneRowFurther(t, i, unreadIn, notifiedIn);
    }
    assert t[..|t|] == t;
    counts := Counts(unread, notified);
  }

  /** The summary query's CASE expression. */
  method SummaryCase(kind: Channels.Kind, level: Option<Level>, user: User, m: Message) returns (notifies: bool)
    ensures notifies <==> Notifies(kind, level, user, m)
  {
    match kind
    case Dm => return true;
    case GroupDm => return true;
    case _ =>
      match level
      case None => return user in m.mentions || "@channel" in m.mentions || "@everyone" in m.mentions;
      case Some(l) =>
        if l == "none" {
          return false;
        } else if l == "all" {
          return true;
        } else if l == "mentions" {
          return user in m.mentions || "@channel" in m.mentions || "@everyone" in m.mentions;
        }
        return false;
  }

  lemma OneRowFurther(t: Table, i: nat, p: Message -> bool, q: Message -> bool)
    requires i < |t|
    ensures Count(t[..i + 1], p) == Count(t[..i], p) + Bit(p(t[i]))
    ensures Count(t[..i + 1], q) == Count(t[..i], q) + Bit(q(t[i]))
  {
    assert t[..i + 1] == t[..i] + [t[i]];
    CountAppend(t[..i], t[i], p);
    CountAppend(t[..i], t[i], q);
  }

  method ListForWorkspace(db: Db, ws: Workspace, user: User) returns (rows: seq<ListedChannel>)
    ensures rows == Listing(db, ws, user, |db.chans|)
  {
    rows := [];
    for n := 0 to |db.chans|
      invariant rows == Listing(db, ws, user, n)
    {
      var c := db.chans[n];
      var isMember := user in c.members;
      if c.ws == ws && !c.archived && (c.kind == Channels.Public || isMember) {
        var counts := ListedCounts(db, n, user);
        rows := rows + [ListedChannel(n, isMember, counts)];
      }
    }
  }

  method GetWorkspaceNotificationSummaries(db: Db, user: User) returns (m: map<Workspace, Counts>)
    ensures SummariesMatch(db, user, m, |db.chans|)
  {
    m := map[];
    for n := 0 to |db.chans|
      invariant SummariesMatch(db, user, m, n)
    {
      GroupRow(db, user, m, n);
      var c := db.chans[n];
      if !c.archived && user in c.members {
        var counts := SummedCounts(db, n, user);
        m := AddRow(m, c.ws, counts);
      }
    }
  }

  method AddRow(m: map<Workspace, Counts>, ws: Workspace, counts: Counts) returns (r: map<Workspace, Counts>)
    ensures r == m[ws := Add(SummaryOf(m, ws), counts)]
  {
    var sum := counts;
    if ws in m {
      sum := Counts(m[ws].unread + counts.unread, m[ws].notified + counts.notified);
    }
    r := m[ws := sum];
  }

  // ---------- moving positions ----------

  /** The channel with the user's position moved, if the user is a member. */
  function WithPosition(c: Chan, user: User, id: Id): Chan {
    if user in c.members then c.(members := c.members[user := c.members[user].(lastRead := Some(id))]) else c
  }

  function ReadMark(db: Db, ch: Channel, user: User): Chan
    requires ch < |db.chans|
  {
    var latest := LatestMessageID(db.messages, ch);
    if latest == 0 then db.chans[ch] else WithPosition(db.chans[ch], user, latest)
  }

  function MarkedAll(db: Db, ws: Workspace, user: User): Chans {
    seq(|db.chans|, i requires 0 <= i < |db.chans| =>
      if Summarised(db.chans[i], ws, user) then ReadMark(db, i, user) else db.chans[i])
  }

  /** A marked channel counts nothing. */
  lemma MarkedCountsZero(db: Db, ws: Workspace, user: User, ch: Channel)
    requires Dense(db.messages) && ch < |db.chans| && Summarised(db.chans[ch], ws, user)
    ensures ChannelCounts(db.(chans := MarkedAll(db, ws, user)), ch, user) == Counts(0, 0)
  {
    var db' := db.(chans := MarkedAll(db, ws, user));
    MarkReadClears(db.messages, ch, PositionOf(db.chans[ch], user));
    assert PositionOf(db'.chans[ch], user) == ReadPosition(db.messages, ch, PositionOf(db.chans[ch], user));
    NotifiedAtMostUnread(db', ch, user);
  }

  lemma {:induction false} MarkedTotalIsZero(db: Db, ws: Workspace, user: User, n: nat)
    requires Dense(db.messages) && n <= |db.chans|
    ensures Total(db.(chans := MarkedAll(db, ws, user)), ws, user, n) == Counts(0, 0)
  {
    if n == 0 {
    } else {
      MarkedTotalIsZero(db, ws, user, n - 1);
      if Summarised(db.chans[n - 1], ws, user) {
        MarkedCountsZero(db, ws, user, n - 1);
      }
    }
  }

  lemma MarkAllReadZeroes(db: Db, ws: Workspace, user: User, n: nat)
    requires Dense(db.messages) && n <= |db.chans|
    ensures MemberSum(Listing(db.(chans := MarkedAll(db, ws, user)), ws, user, n)) == Counts(0, 0)
  {
    MarkedTotalIsZero(db, ws, user, n);
    ListingTotals(db.(chans := MarkedAll(db, ws, user)), ws, user, n);
  }

  /** A channel of another workspace is listed as before. */
  lemma RowUnchanged(db: Db, ws: Workspace, user: User, other: Workspace, ch: Channel)
    requires ch < |db.chans| && other != ws
    ensures ListedRow(db.(chans := MarkedAll(db, ws, user)), other, user, ch) == ListedRow(db, other, user, ch)
  {
    var db' := db.(chans := MarkedAll(db, ws, user));
    assert db'.chans[ch].ws == db.chans[ch].ws;
    if db.chans[ch].ws == other {
      assert db'.chans[ch] == db.chans[ch];
      assert LevelOf(db', ch, user) == LevelOf(db, ch, user);
    }
  }

  /** Other workspaces are not affected: their listings stay as they were. */
  lemma {:induction false} MarkAllReadIsLocal(db: Db, ws: Workspace, user: User, other: Workspace, n: nat)
    requires n <= |db.chans| && other != ws
    ensures Listing(db.(chans := MarkedAll(db, ws, user)), other, user, n) == Listing(db, other, user, n)
  {
    if n == 0 {
    } else {
      MarkAllReadIsLocal(db, ws, user, other, n - 1);
      RowUnchanged(db, ws, user, other, n - 1);
    }
  }

  /** after is before with the position of user, if a member, moved to id. */
  predicate Moved(before: Chan, after: Chan, user: User, id: Id) {
    after.(members := before.members) == before && after.members.Keys == before.members.Keys &&
    forall u :: u in before.members ==>
      after.members[u] == if u == user then before.members[u].(lastRead := Some(id)) else before.members[u]
  }

  lemma MovedIsWithPosition(before: Chan, after: Chan, user: User, id: Id)
    requires Moved(before, after, user, id)
    ensures after == WithPosition(before, user, id)
  {
    assert after.members == WithPosition(before, user, id).members;
  }

  class Positions {
    var db: Db

    ghost predicate Valid()
      reads this
    {
      Messages.Inv(db.messages)
    }

    constructor (db: Db)
      requires Messages.Inv(db.messages)
      ensures Valid() && this.db == db
    {
      this.db := db;
    }

    /** Moves one member's position in one channel. The member's unread messages there
        are then the live top-level ones after id; nobody else's position moves, and
        neither messages nor other channels change. */
    method UpdateLastRead(user: User, ch: Channel, id: Id)
      requires ch < |db.chans|
      modifies this
      ensures db.messages == old(db).messages && db.prefs == old(db).prefs && |db.chans| == |old(db).chans|
      ensures forall c: Channel :: c < |db.chans| && c != ch ==> db.chans[c] == old(db).chans[c]
      ensures Moved(old(db).chans[ch], db.chans[ch], user, id)
      ensures user in db.chans[ch].members ==>
                ChannelCounts(db, ch, user).unread == Count(db.messages, FromIdOn(ch, id + 1))
    {
      var c := db.chans[ch];
      if user in c.members {
        c := c.(members := c.members[user := c.members[user].(lastRead := Some(id))]);
      }
      db := db.(chans := db.chans[ch := c]);
      CountAgree(db.messages, db.messages, UnreadIn(ch, Some(id)), FromIdOn(ch, id + 1));
    }

    /** The MarkChannelRead request; without a message id it uses the latest. */
    method MarkChannelRead(user: User, ch: Channel, requested: Option<Id>) returns (position: Id)
      requires Valid() && ch < |db.chans|
      modifies this
      ensures Valid() && db.messages == old(db).messages && db.prefs == old(db).prefs
      ensures position == if requested.Some? then requested.value else LatestMessageID(db.messages, ch)
      ensures position == 0 ==> db == old(db)
      ensures position != 0 ==> db.chans == old(db).chans[ch := WithPosition(old(db).chans[ch], user, position)]
      ensures requested.None? && user in db.chans[ch].members ==> ChannelCounts(db, ch, user) == Counts(0, 0)
    {
      if requested.Some? {
        position := requested.value;
      } else {
        position := LatestMessageID(db.messages, ch);
      }
      ghost var before := db;
      MarkReadClears(db.messages, ch, PositionOf(db.chans[ch], user));
      if position != 0 {
        UpdateLastRead(user, ch, position);
        MovedIsWithPosition(before.chans[ch], db.chans[ch], user, position);
        assert db.chans == before.chans[ch := WithPosition(before.chans[ch], user, position)];
      }
      NotifiedAtMostUnread(db, ch, user);
    }

    /** The MarkMessageUnread request. */
    method MarkMessageUnread(user: User, id: Id)
      requires Valid() && Exists(db.messages, id) && db.messages[id - 1].channel < |db.chans|
      modifies this
      ensures Valid() && db.messages == old(db).messages && db.prefs == old(db).prefs
      ensures var ch := db.messages[id - 1].channel;
              var previous := PreviousMessageID(db.messages, id);
              db.chans == old(db).chans[ch := WithPosition(old(db).chans[ch], user, previous)] &&
              (user in db.chans[ch].members ==>
                 ChannelCounts(db, ch, user).unread == Count(db.messages, FromIdOn(ch, id)))
    {
      ghost var before := db;
      var ch, prev := db.messages[id - 1].channel, PreviousMessageID(db.messages, id);
      MarkUnreadCounts(db.messages, id);
      if prev != 0 {
        UpdateLastRead(user, ch, prev);
      } else {
        UpdateLastRead(user, ch, 0);
      }
      MovedIsWithPosition(before.chans[ch], db.chans[ch], user, prev);
      assert db.chans == before.chans[ch := WithPosition(before.chans[ch], user, prev)];
    }

    method ListMemberChannelIDs(ws: Workspace, user: User) returns (ids: seq<Channel>)
      ensures forall ch: Channel :: ch in ids <==> ch < |db.chans| && Summarised(db.chans[ch], ws, user)
    {
      ids := [];
      for i := 0 to |db.chans|
        invariant forall ch: Channel :: ch in ids <==> ch < i && Summarised(db.chans[ch], ws, user)
      {
        if Summarised(db.chans[i], ws, user) {
          ids := ids + [i];
        }
      }
    }

    /** The MarkAllChannelsRead request. */
    method MarkAllChannelsRead(ws: Workspace, user: User)
      requires Valid()
      modifies this
      ensures Valid() && db == old(db).(chans := MarkedAll(old(db), ws, user))
      ensures MemberSum(Listing(db, ws, user, |db.chans|)) == Counts(0, 0)
    {
      ghost var before := db;
      MarkAllReadZeroes(db, ws, user, |db.chans|);
      var ids := ListMemberChannelIDs(ws, user);
      assert forall i :: 0 <= i < |ids| ==> ids[i] in ids;
      MarkEach(ids, user);
      assert db.chans == MarkedAll(before, ws, user);
    }

    /** Its loop over the channels. */
    method MarkEach(ids: seq<Channel>, user: User)
      requires forall i :: 0 <= i < |ids| ==> ids[i] < |db.chans|
      modifies this
      ensures db.messages == old(db).messages && db.prefs == old(db).prefs && |db.chans| == |old(db).chans|
      ensures forall ch: Channel :: ch < |db.chans| ==>
                db.chans[ch] == if ch in ids then ReadMark(old(db), ch, user) else old(db).chans[ch]
    {
      ghost var before := db;
      for i := 0 to |ids|
        invariant db.messages == before.messages && db.prefs == before.prefs && |db.chans| == |before.chans|
        invariant forall ch: Channel :: ch < |before.chans| ==>
                    db.chans[ch] == if ch in ids[..i] then ReadMark(before, ch, user) else before.chans[ch]
      {
        var ch := ids[i];
        var latest := LatestMessageID(db.messages, ch);
        assert ids[..i + 1] == ids[..i] + [ch];
        if latest == 0 {
          continue;
        }
        ghost var c := db.chans[ch];
        UpdateLastRead(user, ch, latest);
        MovedIsWithPosition(c, db.chans[ch], user, latest);
      }
      assert ids[..|ids|] == ids;
    }
  }
}
