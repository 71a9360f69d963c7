/** ListAllUnreads (server/internal/message/repository.go): the messages behind the
    unread counts. */
module AllUnreads {
  import opened Common
  import opened Messages
  import opened Paging
  import opened Unread

  predicate Joined(c: Chan, ws: Workspace, user: User) {
    c.ws == ws && user in c.members
  }

  /** Rows of ListAllUnreads: unlike the counts it takes thread replies that were
      also sent to the channel, and does not skip archived channels. */
  predicate IsUnreadRow(db: Db, ws: Workspace, user: User, f: Filter, m: Message) {
    m.channel < |db.chans| && Joined(db.chans[m.channel], ws, user) &&
    (m.parent.None? || m.alsoSend) && m.deletedAt.None? && Past(m, PositionOf(db.chans[m.channel], user)) &&
    NotIn(m.author, f.hidden) && NotIn(m.author, f.blocked)
  }

  function UnreadRow(db: Db, ws: Workspace, user: User, f: Filter): Message -> bool {
    (m: Message) => IsUnreadRow(db, ws, user, f, m)
  }

  method ListAllUnreads(db: Db, ws: Workspace, user: User, limit: int, cursor: Id, f: Filter) returns (page: Page)
    ensures page == PageBefore(db.messages, UnreadRow(db, ws, user, f), PageSize(limit), cursor)
    ensures var size := if 1 <= limit <= 100 then limit else 50;
            |page.ids| <= size && (page.hasMore ==> |page.ids| == size)
  {
    var n := if limit <= 0 || limit > 100 then 50 else limit;
    var p := UnreadRow(db, ws, user, f);
    var fetched := FetchNewest(db.messages, p, Ceiling(db.messages, cursor), n + 1);
    page := TrimFetched(fetched, n, Newest(db.messages, p, Ceiling(db.messages, cursor)));
  }

  function AlsoSentIn(ch: Channel, pos: Position): Message -> bool {
    (m: Message) => m.channel == ch && m.parent.Some? && m.alsoSend && m.deletedAt.None? && Past(m, pos)
  }

  /** What ListAllUnreads shows beyond the counted messages, over n channels. */
  function Extra(db: Db, ws: Workspace, user: User, n: nat): nat
    requires n <= |db.chans|
  {
    if n == 0 then 0
    else
      var c, pos := db.chans[n - 1], PositionOf(db.chans[n - 1], user);
      Extra(db, ws, user, n - 1) +
      (if !Joined(c, ws, user) then 0 else Count(db.messages, AlsoSentIn(n - 1, pos))) +
      (if Joined(c, ws, user) && c.archived then Count(db.messages, UnreadIn(n - 1, pos)) else 0)
  }

  function UnreadRowBelow(db: Db, ws: Workspace, user: User, n: nat): Message -> bool {
    (m: Message) => m.channel < n && IsUnreadRow(db, ws, user, Filter({}, {}), m)
  }

  lemma {:induction false} CountSplits(s: Table, p: Message -> bool, q: Message -> bool, r: Message -> bool)
    requires forall i :: 0 <= i < |s| ==> Bit(p(s[i])) == Bit(q(s[i])) + Bit(r(s[i]))
    ensures Count(s, p) == Count(s, q) + Count(s, r)
  {
    if s == [] {
    } else {
      CountSplits(s[..|s| - 1], p, q, r);
    }
  }

  function UnreadRowAt(db: Db, ws: Workspace, user: User, ch: Channel): Message -> bool {
    (m: Message) => m.channel == ch && IsUnreadRow(db, ws, user, Filter({}, {}), m)
  }

  lemma ChannelShare(db: Db, ws: Workspace, user: User, ch: Channel)
    requires ch < |db.chans|
    ensures var c, pos := db.chans[ch], PositionOf(db.chans[ch], user);
            Count(db.messages, UnreadRowAt(db, ws, user, ch))
            == if Joined(c, ws, user)
               then Count(db.messages, UnreadIn(ch, pos)) + Count(db.messages, AlsoSentIn(ch, pos))
               else 0
  {
    var c, pos := db.chans[ch], PositionOf(db.chans[ch], user);
    if Joined(c, ws, user) {
      CountSplits(db.messages, UnreadRowAt(db, ws, user, ch), UnreadIn(ch, pos), AlsoSentIn(ch, pos));
    } else {
      CountNone(db.messages, UnreadRowAt(db, ws, user, ch));
    }
  }

  lemma RowsStep(db: Db, ws: Workspace, user: User, n: nat)
    ensures Count(db.messages, UnreadRowBelow(db, ws, user, n + 1))
         == Count(db.messages, UnreadRowBelow(db, ws, user, n)) + Count(db.messages, UnreadRowAt(db, ws, user, n))
  {
    CountSplits(db.messages, UnreadRowBelow(db, ws, user, n + 1), UnreadRowBelow(db, ws, user, n),
                UnreadRowAt(db, ws, user, n));
  }

  lemma TotalStep(db: Db, ws: Workspace, user: User, n: nat)
    requires n < |db.chans|
    ensures Total(db, ws, user, n + 1).unread
         == Total(db, ws, user, n).unread +
            if Summarised(db.chans[n], ws, user) then Count(db.messages, UnreadIn(n, PositionOf(db.chans[n], user)))
            else 0
  {}

  lemma {:induction false} RowsBelow(db: Db, ws: Workspace, user: User, n: nat)
    requires n <= |db.chans|
    ensures Count(db.messages, UnreadRowBelow(db, ws, user, n))
         == Total(db, ws, user, n).unread + Extra(db, ws, user, n)
  {
    if n == 0 {
      CountNone(db.messages, UnreadRowBelow(db, ws, user, 0));
    } else {
      RowsBelow(db, ws, user, n - 1);
      TotalStep(db, ws, user, n - 1);
      ChannelShare(db, ws, user, n - 1);
      RowsStep(db, ws, user, n - 1);
    }
  }

  lemma {:induction false} NewestLength(t: Table, p: Message -> bool, hi: nat)
    requires hi <= |t|
    ensures |Newest(t, p, hi)| == Count(t[..hi], p)
  {
    if hi == 0 {
    } else {
      NewestLength(t, p, hi - 1);
      assert t[..hi][..hi - 1] == t[..hi - 1];
    }
  }

  /** The unread rows that the hidden and blocked lists keep from the user. */
  function FilteredRow(db: Db, ws: Workspace, user: User, f: Filter): Message -> bool {
    (m: Message) =>
      IsUnreadRow(db, ws, user, Filter({}, {}), m) && !(NotIn(m.author, f.hidden) && NotIn(m.author, f.blocked))
  }

  /** A whole walk of ListAllUnreads returns as many messages as the workspace summary
      counts, plus the live replies also sent to a channel after the user's position,
      plus the unread messages of archived channels, less those of hidden and blocked
      users. */
  lemma AllUnreadsVersusSummary(db: Db, ws: Workspace, user: User, f: Filter, limit: nat)
    requires limit >= 1
    ensures |Flatten(WalkBack(db.messages, [], UnreadRow(db, ws, user, f), limit, 0))|
            + Count(db.messages, FilteredRow(db, ws, user, f))
         == MemberSum(Listing(db, ws, user, |db.chans|)).unread + Extra(db, ws, user, |db.chans|)
  {
    var t, p, n := db.messages, UnreadRow(db, ws, user, f), |db.chans|;
    WalkBackIsExact(t, [], p, limit, 0);
    NewestLength(t, p, |t|);
    assert t[..|t|] == t;
    CountSplits(t, UnreadRowBelow(db, ws, user, n), p, FilteredRow(db, ws, user, f));
    RowsBelow(db, ws, user, n);
    ListingTotals(db, ws, user, n);
  }

  /** A live message after the user's position, top-level or also sent to the channel, in
      a channel of the workspace that the user belongs to, by an author the user has
      neither hidden nor blocked. */
  predicate UnreadBy(db: Db, ws: Workspace, user: User, f: Filter, id: Id) {
    1 <= id <= |db.messages| &&
    var m := db.messages[id - 1];
    m.channel < |db.chans| && db.chans[m.channel].ws == ws && user in db.chans[m.channel].members &&
    (m.parent.None? || m.alsoSend) && m.deletedAt.None? &&
    (var read := db.chans[m.channel].members[user].lastRead; read.None? || m.id > read.value) &&
    (f.hidden == {} || (m.author.Some? && m.author.value !in f.hidden)) &&
    (f.blocked == {} || (m.author.Some? && m.author.value !in f.blocked))
  }

  /** Messages may be sent, edited, deleted, pinned and unpinned between the pages: the
      walk goes strictly down, shows only messages that were unread when it started,
      and shows every one of them that is still live when it ends. */
  lemma AllUnreadsWithWrites(db: Db, batches: seq<seq<Op>>, ws: Workspace, user: User, f: Filter, limit: int)
    ensures var p, t := UnreadRow(db, ws, user, f), db.messages;
            var ids := Flatten(WalkBack(t, batches, p, PageSize(limit), 0));
            var last := TableAtEnd(t, batches, p, PageSize(limit), 0);
            Extends(t, last) && Descending(ids) &&
            (forall id: Id :: id in ids ==> UnreadBy(db, ws, user, f, id)) &&
            forall id: Id :: UnreadBy(db, ws, user, f, id) && last[id - 1].deletedAt.None? ==> id in ids
  {
    var p, t := UnreadRow(db, ws, user, f), db.messages;
    var last := TableAtEnd(t, batches, p, PageSize(limit), 0);
    WalkBackFades(t, batches, p, PageSize(limit), 0);
    forall id: Id | Exists(t, id) && p(t[id - 1]) && Live(last, id)
      ensures p(last[id - 1])
    {
      assert SameKey(t[id - 1], last[id - 1]);
    }
  }
}
