/** What sending a message does to the lists that readers walk through
    (server/internal/message/repository.go): the channel, the thread, the user's
    threads and the pins. */
module Delivery {
  import opened Common
  import opened Messages
  import opened Paging
  import opened Threads
  import opened ThreadWalks
  import opened Pins

  /** A channel read to its end, newest first. */
  function ReadChannel(t: Table, ch: Channel, f: Filter, limit: int): seq<Id> {
    Flatten(WalkBack(t, [], VisibleIn(ch, f), PageSize(limit), 0))
  }

  /** A thread read to its end, oldest first. */
  function ReadThread(t: Table, parent: Id, f: Filter, limit: int): seq<Id> {
    Flatten(WalkForward(t, [], ReplyIn(parent, f), PageSize(limit), 0).0)
  }

  lemma CreateAppends(t: Table, d: Draft, now: Time)
    requires Allowed(t, Create(d, now)) == Ok
    ensures var t' := Apply(t, Create(d, now));
            Extends(t, t') && |t'| == |t| + 1 && t'[|t|] == NewRow(|t| + 1, d, now)
  {
    ApplyExtends(t, Create(d, now));
  }

  lemma NewRowInNewest(t: Table, t': Table, p: Message -> bool)
    requires Extends(t, t') && |t'| == |t| + 1 && KeyOnly(p)
    ensures Newest(t', p, |t'|) == (if p(t'[|t|]) then [|t'|] else []) + Newest(t, p, |t|)
  {
    NewestStable(t, t', p, |t|);
  }

  lemma NewRowInOldest(t: Table, t': Table, p: Message -> bool)
    requires Extends(t, t') && |t'| == |t| + 1 && KeyOnly(p)
    ensures Oldest(t', p, 0) == Oldest(t, p, 0) + if p(t'[|t|]) then [|t'|] else []
  {
    OldestStable(t, t', p, 0);
    assert Oldest(t', p, |t| + 1) == [];
  }

  lemma {:induction false} StaysWithoutWrites(t: Table, p: Message -> bool, limit: nat, cursor: Id)
    requires limit >= 1
    ensures WalkForward(t, [], p, limit, cursor).1 == t
    decreases |t| - Floor(t, cursor)
  {
    var page := PageAfter(t, p, limit, cursor);
    if page.hasMore {
      OldestSplit(t, p, Floor(t, cursor), limit - 1);
      StaysWithoutWrites(t, p, limit, page.nextCursor);
    }
  }

  lemma ReadThreadIsOldest(t: Table, parent: Id, f: Filter, limit: int)
    ensures ReadThread(t, parent, f, limit) == Oldest(t, ReplyIn(parent, f), 0)
  {
    WalkForwardIsExact(t, [], ReplyIn(parent, f), PageSize(limit), 0);
    StaysWithoutWrites(t, ReplyIn(parent, f), PageSize(limit), 0);
  }

  lemma ReadChannelIsNewest(t: Table, ch: Channel, f: Filter, limit: int)
    ensures ReadChannel(t, ch, f, limit) == Newest(t, VisibleIn(ch, f), |t|)
  {
    WalkBackIsExact(t, [], VisibleIn(ch, f), PageSize(limit), 0);
  }

  /** A message is read first in its channel if it is no reply or was also sent there,
      and last in the thread it replies to, in both cases by those who have not hidden
      or blocked its author. Nothing else that anybody reads changes. */
  lemma SentMessageIsRead(t: Table, d: Draft, now: Time, ch: Channel, parent: Id, f: Filter, limit: int)
    requires d.parent.Some? ==> 1 <= d.parent.value <= |t|
    ensures var t', id := Apply(t, Create(d, now)), |t| + 1;
            var shown := (f.hidden == {} || (d.author.Some? && d.author.value !in f.hidden)) &&
                         (f.blocked == {} || (d.author.Some? && d.author.value !in f.blocked));
            ReadChannel(t', ch, f, limit)
            == (if ch == d.channel && (d.parent.None? || d.alsoSend) && shown then [id] else [])
               + ReadChannel(t, ch, f, limit) &&
            ReadThread(t', parent, f, limit)
            == ReadThread(t, parent, f, limit) + if d.parent == Some(parent) && shown then [id] else []
  {
    var t' := Apply(t, Create(d, now));
    ReadChannelIsNewest(t, ch, f, limit);
    ReadChannelIsNewest(t', ch, f, limit);
    CreateAppends(t, d, now);
    NewRowInNewest(t, t', VisibleIn(ch, f));
    ReadThreadIsOldest(t, parent, f, limit);
    ReadThreadIsOldest(t', parent, f, limit);
    NewRowInOldest(t, t', ReplyIn(parent, f));
  }

  /** Edits, deletes, pins and unpins leave both readings as they were. */
  lemma OtherWritesAreNotRead(t: Table, op: Op, ch: Channel, parent: Id, f: Filter, limit: int)
    requires !op.Create?
    ensures ReadChannel(Apply(t, op), ch, f, limit) == ReadChannel(t, ch, f, limit)
    ensures ReadThread(Apply(t, op), parent, f, limit) == ReadThread(t, parent, f, limit)
  {
    var t' := Apply(t, op);
    ApplyExtends(t, op);
    ReadChannelIsNewest(t, ch, f, limit);
    ReadChannelIsNewest(t', ch, f, limit);
    NewestStable(t, t', VisibleIn(ch, f), |t|);
    ReadThreadIsOldest(t, parent, f, limit);
    ReadThreadIsOldest(t', parent, f, limit);
    OldestStable(t, t', ReplyIn(parent, f), 0);
    assert Oldest(t', ReplyIn(parent, f), |t|) == [];
  }

  // ---------- the user's threads ----------

  /** The user's threads read to the end. */
  ghost function ReadThreads(t: Table, src: Source, limit: int): seq<Id>
    requires Inv(t)
  {
    Flatten(Walk(t, src, ThreadPageSize(limit), 0))
  }

  lemma FollowedAfterReply(t: Table, t': Table, src: Source, x: Id, now: Time, id: Id)
    requires Exists(t, x) && ReplyWasMade(t, t', x, now) && id <= |t|
    requires t'[|t|].parent == Some(x) && t'[|t|].deletedAt.None?
    ensures id != x ==> (Followed(t', src, id) <==> Followed(t, src, id))
    ensures Followed(t', src, x) <==>
              t[x - 1].deletedAt == None && x in src.subscribed && t[x - 1].channel in src.channels &&
              NotIn(t[x - 1].author, src.filter.hidden) && NotIn(t[x - 1].author, src.filter.blocked)
  {
    forall j | 0 <= j < |t|
      ensures LiveReplyTo(id)(t'[j]) == LiveReplyTo(id)(t[j])
    {}
    assert LiveReplyTo(x)(t'[|t|]);
  }

  lemma NewRowIsNotFollowed(t: Table, t': Table, src: Source, x: Id, now: Time)
    requires Inv(t') && Exists(t, x) && ReplyWasMade(t, t', x, now)
    ensures !Followed(t', src, |t| + 1)
  {
    RepliedRowsHaveATime(t', |t|);
  }

  /** A list of threads that holds x, where x has the newest reply time, begins with x. */
  lemma NewestIsFirst(t: Table, s: seq<Id>, x: Id)
    requires AllExist(t, s) && Ordered(t, s) && x in s
    requires forall i :: 0 <= i < |s| && s[i] != x ==> Above(t, x, s[i])
    ensures s[0] == x && forall id: Id :: id in s[1..] <==> id in s && id != x
  {
    forall id: Id
      ensures id in s[1..] <==> id in s && id != x
    {
      TailMembers(t, s, id);
    }
  }

  lemma RepliedThreadIsFirst(t: Table, t': Table, src: Source, x: Id, now: Time, limit: int)
    requires Inv(t) && Inv(t') && Exists(t, x) && ReplyWasMade(t, t', x, now)
    requires t'[|t|].parent == Some(x) && t'[|t|].deletedAt.None?
    requires forall i :: 0 <= i < |t| && t[i].lastReplyAt.Some? ==> t[i].lastReplyAt.value < now
    ensures var before, after := ReadThreads(t, src, limit), ReadThreads(t', src, limit);
            AllExist(t, after) &&
            if Followed(t', src, x)
            then after != [] && after[0] == x && Ordered(t, after[1..]) &&
                 forall id: Id :: id in after[1..] <==> id in before && id != x
            else after == before
  {
    WalkVisitsEveryThreadOnce(t, src, ThreadPageSize(limit));
    WalkVisitsEveryThreadOnce(t', src, ThreadPageSize(limit));
    NewRowIsNotFollowed(t, t', src, x, now);
    SameThreads(t, t', src, x, now, ReadThreads(t, src, limit), ReadThreads(t', src, limit));
  }

  /** A reply written after all others takes its thread to the front of the list of
      everybody who follows it, whether it was listed before or not, and leaves the
      other threads as they were. */
  lemma ReplyComesFirst(t: Table, src: Source, d: Draft, now: Time, limit: int)
    requires Inv(t) && d.parent.Some? && Exists(t, d.parent.value)
    requires forall i :: 0 <= i < |t| && t[i].lastReplyAt.Some? ==> t[i].lastReplyAt.value < now
    ensures Inv(Apply(t, Create(d, now)))
    ensures var x, m := d.parent.value, t[d.parent.value - 1];
            var before, after := ReadThreads(t, src, limit), ReadThreads(Apply(t, Create(d, now)), src, limit);
            if m.deletedAt == None && x in src.subscribed && m.channel in src.channels &&
               (src.filter.hidden == {} || (m.author.Some? && m.author.value !in src.filter.hidden)) &&
               (src.filter.blocked == {} || (m.author.Some? && m.author.value !in src.filter.blocked))
            then after != [] && after[0] == x && AllExist(t, after) && Ordered(t, after[1..]) &&
                 forall id: Id :: id in after[1..] <==> id in before && id != x
            else after == before
  {
    var x, t' := d.parent.value, Apply(t, Create(d, now));
    CreateKeepsInv(t, d, now);
    CreateMakesTheReply(t, d, now);
    CreateAppends(t, d, now);
    FollowedAfterReply(t, t', src, x, now, x);
    RepliedThreadIsFirst(t, t', src, x, now, limit);
  }

  lemma SameThreads(t: Table, t': Table, src: Source, x: Id, now: Time, before: seq<Id>, after: seq<Id>)
    requires Exists(t, x) && ReplyWasMade(t, t', x, now) && !Followed(t', src, |t| + 1)
    requires t'[|t|].parent == Some(x) && t'[|t|].deletedAt.None?
    requires forall i :: 0 <= i < |t| && t[i].lastReplyAt.Some? ==> t[i].lastReplyAt.value < now
    requires AllExist(t, before) && Ordered(t, before) && AllExist(t', after) && Ordered(t', after)
    requires forall id: Id :: id in before <==> Followed(t, src, id)
    requires forall id: Id :: id in after <==> Followed(t', src, id)
    ensures AllExist(t, after)
    ensures Followed(t', src, x) ==>
              after != [] && after[0] == x && Ordered(t, after[1..]) &&
              forall id: Id :: id in after[1..] <==> id in before && id != x
    ensures !Followed(t', src, x) ==> after == before
  {
    forall id: Id
      ensures id in after <==> if id == x then Followed(t', src, x) else id in before
    {
      if id <= |t| {
        FollowedAfterReply(t, t', src, x, now, id);
      }
    }
    forall i | 0 <= i < |after|
      ensures Exists(t, after[i])
    {
      assert after[i] in after;
    }
    if Followed(t', src, x) {
      NewestIsFirst(t', after, x);
    } else {
      FollowedAfterReply(t, t', src, x, now, x);
      OrderIsUnique(t, after, before);
    }
  }

  // ---------- the pins ----------

  /** A pin made after all others heads the channel's list of pins, whichever of the
      possible answers the database gives, if its message is live and its author is
      neither hidden nor blocked; the rest are the pins listed before. */
  lemma NewPinComesFirst(t: Table, id: Id, user: User, now: Time, f: Filter, before: seq<Id>, after: seq<Id>)
    requires Dense(t) && Exists(t, id) && Allowed(t, Pin(id, user, now)) == Ok
    requires forall i :: 0 <= i < |t| && t[i].pinnedAt.Some? ==> t[i].pinnedAt.value < now
    requires PinOrder(t, PinWanted(t[id - 1].channel, f, 0), before)
    requires PinOrder(Apply(t, Pin(id, user, now)), PinWanted(t[id - 1].channel, f, 0), after)
    ensures var m := t[id - 1];
            var shown := m.deletedAt == None &&
                         (f.hidden == {} || (m.author.Some? && m.author.value !in f.hidden)) &&
                         (f.blocked == {} || (m.author.Some? && m.author.value !in f.blocked));
            (shown ==> after != [] && after[0] == id) &&
            forall other: Id :: other in after <==> (other == id && shown) || (other != id && other in before)
  {
    var t' := Apply(t, Pin(id, user, now));
    assert id in after <==> PinWanted(t[id - 1].channel, f, 0)(t'[id - 1]);
    forall other: Id | Exists(t, other) && other != id
      ensures other in after <==> other in before
    {
      assert t'[other - 1] == t[other - 1];
    }
    if id in after {
      FirstIsNewest(t', after, id, now);
    }
  }

  lemma FirstIsNewest(t: Table, s: seq<Id>, id: Id, now: Time)
    requires PinnedRows(t, s) && NewestPinFirst(t, s) && id in s && t[id - 1].pinnedAt == Some(now)
    requires forall i :: 0 <= i < |t| && i != id - 1 && t[i].pinnedAt.Some? ==> t[i].pinnedAt.value < now
    ensures s[0] == id
  {
    var k :| 0 <= k < |s| && s[k] == id;
    assert k == 0 || PinTime(t, s, 0) >= PinTime(t, s, k) == now;
    assert PinTime(t, s, 0) == t[s[0] - 1].pinnedAt.value;
  }
}
