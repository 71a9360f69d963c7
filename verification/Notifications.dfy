/** What the unread and notification counts mean, in terms of the preferences, the
    channel type and the mentions, and what sending a message adds to them
    (server/internal/channel/repository.go). */
module Notifications {
  import opened Common
  import opened Messages
  import opened Unread
  import Channels

  /** New to the user: a live top-level message after the position, if there is one. */
  function IsNew(db: Db, ch: Channel, user: User): Message -> bool
    requires ch < |db.chans|
  {
    var members := db.chans[ch].members;
    (m: Message) =>
      m.channel == ch && m.parent.None? && m.deletedAt.None? &&
      (user !in members || members[user].lastRead.None? || m.id > members[user].lastRead.value)
  }

  /** New, and naming the user or everybody. */
  function IsNewMention(db: Db, ch: Channel, user: User): Message -> bool
    requires ch < |db.chans|
  {
    var isNew := IsNew(db, ch, user);
    (m: Message) => isNew(m) && (user in m.mentions || "@channel" in m.mentions || "@everyone" in m.mentions)
  }

  /** The counts of one channel: every new message notifies in a DM and at level "all",
      none at "none" or a level unknown to the server, and those with a mention at
      level "mentions" or where the user has set nothing. */
  ghost predicate CountsMean(db: Db, ch: Channel, user: User, counts: Counts)
    requires ch < |db.chans|
  {
    var kind, t := db.chans[ch].kind, db.messages;
    counts.unread == Count(t, IsNew(db, ch, user)) &&
    counts.notified ==
      if kind == Channels.Dm || kind == Channels.GroupDm then counts.unread
      else if (user, ch) !in db.prefs || db.prefs[(user, ch)] == "mentions" then Count(t, IsNewMention(db, ch, user))
      else if db.prefs[(user, ch)] == "all" then counts.unread
      else 0
  }

  lemma ChannelCountsMean(db: Db, ch: Channel, user: User)
    requires ch < |db.chans|
    ensures CountsMean(db, ch, user, ChannelCounts(db, ch, user))
  {
    var c, t := db.chans[ch], db.messages;
    var pos, level := PositionOf(c, user), LevelOf(db, ch, user);
    CountAgree(t, t, UnreadIn(ch, pos), IsNew(db, ch, user));
    if c.kind == Channels.Dm || c.kind == Channels.GroupDm || level == Some("all") {
      CountAgree(t, t, NotifiedIn(ch, pos, c.kind, level, user), UnreadIn(ch, pos));
    } else if level == None || level == Some("mentions") {
      CountAgree(t, t, NotifiedIn(ch, pos, c.kind, level, user), IsNewMention(db, ch, user));
    } else {
      CountNone(t, NotifiedIn(ch, pos, c.kind, level, user));
    }
  }

  /** An open channel of the workspace that is public or the user's. */
  predicate Open(db: Db, ws: Workspace, user: User, ch: Channel) {
    ch < |db.chans| && db.chans[ch].ws == ws && !db.chans[ch].archived &&
    (db.chans[ch].kind == Channels.Public || user in db.chans[ch].members)
  }

  predicate Lists(rows: seq<ListedChannel>, ch: Channel) {
    exists k :: 0 <= k < |rows| && rows[k].ch == ch
  }

  ghost predicate RowMeans(db: Db, user: User, r: ListedChannel) {
    r.ch < |db.chans| && (r.isMember <==> user in db.chans[r.ch].members) && CountsMean(db, r.ch, user, r.counts)
  }

  /** The listing of the first n channels: the open ones, in order, each with its
      counts. */
  ghost predicate ListingMeans(db: Db, ws: Workspace, user: User, rows: seq<ListedChannel>, n: nat) {
    (forall ch: Channel :: Lists(rows, ch) <==> ch < n && Open(db, ws, user, ch)) &&
    (forall j, k :: 0 <= j < k < |rows| ==> rows[j].ch < rows[k].ch) &&
    forall k :: 0 <= k < |rows| ==> RowMeans(db, user, rows[k])
  }

  lemma ListsSnoc(rows: seq<ListedChannel>, r: ListedChannel, ch: Channel)
    ensures Lists(rows + [r], ch) <==> Lists(rows, ch) || r.ch == ch
  {
    if k :| 0 <= k < |rows| && rows[k].ch == ch {
      assert (rows + [r])[k].ch == ch;
    }
    assert (rows + [r])[|rows|] == r;
  }

  lemma ListingGrows(db: Db, ws: Workspace, user: User, rows: seq<ListedChannel>, n: nat, r: ListedChannel)
    requires ListingMeans(db, ws, user, rows, n)
    requires r.ch == n && Open(db, ws, user, n) && RowMeans(db, user, r)
    ensures ListingMeans(db, ws, user, rows + [r], n + 1)
  {
    forall ch: Channel
      ensures Lists(rows + [r], ch) <==> Lists(rows, ch) || n == ch
    {
      ListsSnoc(rows, r, ch);
    }
    forall k | 0 <= k < |rows|
      ensures rows[k].ch < n
    {
      assert Lists(rows, rows[k].ch);
    }
  }

  lemma RowIsMeant(db: Db, ws: Workspace, user: User, ch: Channel)
    requires ch < |db.chans|
    ensures if Open(db, ws, user, ch)
            then |ListedRow(db, ws, user, ch)| == 1 && ListedRow(db, ws, user, ch)[0].ch == ch &&
                 RowMeans(db, user, ListedRow(db, ws, user, ch)[0])
            else ListedRow(db, ws, user, ch) == []
  {
    ChannelCountsMean(db, ch, user);
  }

  lemma {:induction false} ListingIsMeant(db: Db, ws: Workspace, user: User, n: nat)
    requires n <= |db.chans|
    ensures ListingMeans(db, ws, user, Listing(db, ws, user, n), n)
  {
    if n == 0 {
    } else {
      var rows, row := Listing(db, ws, user, n - 1), ListedRow(db, ws, user, n - 1);
      ListingIsMeant(db, ws, user, n - 1);
      RowIsMeant(db, ws, user, n - 1);
      if row == [] {
        assert rows + row == rows;
      } else {
        assert row == [row[0]];
        ListingGrows(db, ws, user, rows, n - 1, row[0]);
      }
    }
  }

  // ---------- sending ----------

  /** Whether a message like this one would be new to the user in the channel, and
      whether it would notify them. */
  predicate Arrives(db: Db, d: Draft, ch: Channel, user: User)
    requires ch < |db.chans|
  {
    var members := db.chans[ch].members;
    d.channel == ch && d.parent.None? &&
    (user !in members || members[user].lastRead.None? || |db.messages| + 1 > members[user].lastRead.value)
  }

  predicate Rings(db: Db, d: Draft, ch: Channel, user: User)
    requires ch < |db.chans|
  {
    Arrives(db, d, ch, user) &&
    (db.chans[ch].kind == Channels.Dm || db.chans[ch].kind == Channels.GroupDm ||
     if (user, ch) !in db.prefs || db.prefs[(user, ch)] == "mentions"
     then user in d.mentions || "@channel" in d.mentions || "@everyone" in d.mentions
     else db.prefs[(user, ch)] == "all")
  }

  lemma CountNewRow(t: Table, t': Table, p: Message -> bool)
    requires |t'| == |t| + 1 && forall i :: 0 <= i < |t| ==> p(t[i]) == p(t'[i])
    ensures Count(t', p) == Count(t, p) + Bit(p(t'[|t|]))
  {
    CountAgree(t, t'[..|t|], p, p);
  }

  function AfterSend(db: Db, d: Draft, now: Time): Db {
    db.(messages := Apply(db.messages, Create(d, now)))
  }

  /** One message adds one to the counts of its own channel where it is new, and one to
      the notifications where it rings; every other channel counts as before. */
  lemma SendRaisesCounts(db: Db, d: Draft, now: Time, ch: Channel, user: User)
    requires ch < |db.chans| && Allowed(db.messages, Create(d, now)) == Ok
    ensures var before, after := ChannelCounts(db, ch, user), ChannelCounts(AfterSend(db, d, now), ch, user);
            after.unread == before.unread + Bit(Arrives(db, d, ch, user)) &&
            after.notified == before.notified + Bit(Rings(db, d, ch, user))
  {
    var c, t, t' := db.chans[ch], db.messages, Apply(db.messages, Create(d, now));
    var pos, level := PositionOf(c, user), LevelOf(db, ch, user);
    OldRowsCountAlike(t, d, now, ch, pos, c.kind, level, user);
    CountNewRow(t, t', UnreadIn(ch, pos));
    CountNewRow(t, t', NotifiedIn(ch, pos, c.kind, level, user));
  }

  lemma OldRowsCountAlike(t: Table, d: Draft, now: Time, ch: Channel, pos: Position, kind: Channels.Kind,
                          level: Option<Level>, user: User)
    requires Allowed(t, Create(d, now)) == Ok
    ensures var t' := Apply(t, Create(d, now));
            |t'| == |t| + 1 && t'[|t|] == NewRow(|t| + 1, d, now) &&
            forall i :: 0 <= i < |t| ==>
              UnreadIn(ch, pos)(t[i]) == UnreadIn(ch, pos)(t'[i]) &&
              NotifiedIn(ch, pos, kind, level, user)(t[i]) == NotifiedIn(ch, pos, kind, level, user)(t'[i])
  {}

  /** The message's channel is one of the first n, open, in the workspace and the user's. */
  predicate Summed(db: Db, d: Draft, ws: Workspace, user: User, n: nat)
    requires n <= |db.chans|
  {
    d.channel < n && db.chans[d.channel].ws == ws && !db.chans[d.channel].archived &&
    user in db.chans[d.channel].members
  }

  lemma SummedStep(db: Db, d: Draft, ws: Workspace, user: User, n: nat)
    requires n < |db.chans|
    ensures var own, here := Summed(db, d, ws, user, n), Summarised(db.chans[n], ws, user);
            var more := Summed(db, d, ws, user, n + 1);
            Bit(more && Arrives(db, d, d.channel, user))
            == Bit(own && Arrives(db, d, d.channel, user)) + Bit(here && Arrives(db, d, n, user)) &&
            Bit(more && Rings(db, d, d.channel, user))
            == Bit(own && Rings(db, d, d.channel, user)) + Bit(here && Rings(db, d, n, user))
  {}

  lemma {:induction false} SendRaisesTotal(db: Db, d: Draft, now: Time, ws: Workspace, user: User, n: nat)
    requires n <= |db.chans| && Allowed(db.messages, Create(d, now)) == Ok
    ensures var before, after := Total(db, ws, user, n), Total(AfterSend(db, d, now), ws, user, n);
            var summed := Summed(db, d, ws, user, n);
            after.unread == before.unread + Bit(summed && Arrives(db, d, d.channel, user)) &&
            after.notified == before.notified + Bit(summed && Rings(db, d, d.channel, user))
  {
    if n == 0 {
    } else {
      SendRaisesTotal(db, d, now, ws, user, n - 1);
      SendRaisesCounts(db, d, now, n - 1, user);
      SummedStep(db, d, ws, user, n - 1);
    }
  }

  /** In the summaries it adds the same to the workspace of its channel, if that channel is
      open and the user belongs to it. */
  lemma SendRaisesSummary(db: Db, d: Draft, now: Time, ws: Workspace, user: User)
    requires Allowed(db.messages, Create(d, now)) == Ok
    ensures var before := MemberSum(Listing(db, ws, user, |db.chans|));
            var after := MemberSum(Listing(AfterSend(db, d, now), ws, user, |db.chans|));
            var summed := d.channel < |db.chans| && db.chans[d.channel].ws == ws && !db.chans[d.channel].archived &&
                          user in db.chans[d.channel].members;
            after.unread == before.unread + Bit(summed && Arrives(db, d, d.channel, user)) &&
            after.notified == before.notified + Bit(summed && Rings(db, d, d.channel, user))
  {
    SendRaisesTotal(db, d, now, ws, user, |db.chans|);
    ListingTotals(db, ws, user, |db.chans|);
    ListingTotals(AfterSend(db, d, now), ws, user, |db.chans|);
  }
}
