/** Walking through a user's threads while messages are written
    (server/internal/message/repository.go): the listing is ordered by a column that
    replies rewrite. */
module ThreadWalks {
  import opened Common
  import opened Messages
  import opened Paging
  import opened Threads

  /** The part of the query that no write changes. */
  function Followable(src: Source): Message -> bool {
    (m: Message) =>
      m.id in src.subscribed && m.channel in src.channels &&
      NotIn(m.author, src.filter.hidden) && NotIn(m.author, src.filter.blocked)
  }

  predicate Selected(t: Table, src: Source, cursor: Id, id: Id) {
    Exists(t, id) && Wanted(t, src, cursor)(t[id - 1])
  }

  // ---------- writes that leave the order alone ----------

  /** The write is no reply to a thread that the listing could show. */
  predicate QuietOp(t: Table, src: Source, op: Op) {
    op.Create? && op.draft.parent.Some? && Exists(t, op.draft.parent.value) ==>
      !Followable(src)(t[op.draft.parent.value - 1])
  }

  predicate QuietOps(t: Table, src: Source, ops: seq<Op>)
    decreases |ops|
  {
    ops == [] || (QuietOp(t, src, ops[0]) && QuietOps(Apply(t, ops[0]), src, ops[1..]))
  }

  /** Threads may leave the listing, but none enters it or moves. */
  predicate Calm(t: Table, t': Table, src: Source) {
    Extends(t, t') &&
    (forall i :: 0 <= i < |t| && Followable(src)(t[i]) ==>
       t'[i].lastReplyAt == t[i].lastReplyAt && (t'[i].replyCount > 0 ==> t[i].replyCount > 0)) &&
    forall i :: |t| <= i < |t'| && Followable(src)(t'[i]) ==> t'[i].replyCount <= 0
  }

  lemma QuietOpIsCalm(t: Table, src: Source, op: Op)
    requires QuietOp(t, src, op)
    ensures Calm(t, Apply(t, op), src)
  {
    ApplyExtends(t, op);
  }

  lemma CalmTransitive(a: Table, b: Table, c: Table, src: Source)
    requires Calm(a, b, src) && Calm(b, c, src)
    ensures Calm(a, c, src)
  {
    ExtendsTransitive(a, b, c);
    forall i | 0 <= i < |b|
      ensures Followable(src)(c[i]) == Followable(src)(b[i])
      ensures i < |a| ==> Followable(src)(b[i]) == Followable(src)(a[i])
    {
      assert SameKey(b[i], c[i]);
      assert i < |a| ==> SameKey(a[i], b[i]);
    }
  }

  lemma {:induction false} QuietOpsAreCalm(t: Table, src: Source, ops: seq<Op>)
    requires QuietOps(t, src, ops)
    ensures Calm(t, Run(t, ops), src)
    decreases |ops|
  {
    if ops == [] {
    } else {
      QuietOpIsCalm(t, src, ops[0]);
      QuietOpsAreCalm(Apply(t, ops[0]), src, ops[1..]);
      CalmTransitive(t, Apply(t, ops[0]), Run(t, ops), src);
    }
  }

  // ---------- the walk ----------

  /** A client follows NextCursor; batches[k] is what is written between page k and
      page k + 1. */
  ghost function WalkOn(t: Table, batches: seq<seq<Op>>, src: Source, limit: nat, cursor: Id): seq<Page>
    requires limit >= 1 && Inv(t)
    decreases |batches|, |Ranked(t, Wanted(t, src, cursor), |t|)|
  {
    var page := ThreadPage(t, src, limit, cursor);
    if !page.hasMore then [page]
    else if batches == [] then
      NextPageIsTheRest(t, src, cursor, limit - 1);
      [page] + WalkOn(t, [], src, limit, page.nextCursor)
    else
      RunKeepsInv(t, batches[0]);
      [page] + WalkOn(Run(t, batches[0]), batches[1..], src, limit, page.nextCursor)
  }

  /** The table when the last page was served. */
  ghost function TableAtEnd(t: Table, batches: seq<seq<Op>>, src: Source, limit: nat, cursor: Id): Table
    requires limit >= 1 && Inv(t)
    decreases |batches|
  {
    if batches == [] || !ThreadPage(t, src, limit, cursor).hasMore then t
    else
      RunKeepsInv(t, batches[0]);
      TableAtEnd(Run(t, batches[0]), batches[1..], src, limit, ThreadPage(t, src, limit, cursor).nextCursor)
  }

  predicate QuietBatches(t: Table, src: Source, batches: seq<seq<Op>>)
    decreases |batches|
  {
    batches == [] || (QuietOps(t, src, batches[0]) && QuietBatches(Run(t, batches[0]), src, batches[1..]))
  }

  /** A walk from the cursor that returned ids: they go strictly down in the listing's
      order, all of them were selected when it started, and every thread selected then
      and still listed when it ended is among them. */
  ghost predicate Shows(t: Table, last: Table, src: Source, cursor: Id, ids: seq<Id>) {
    Calm(t, last, src) && AllExist(t, ids) && Ordered(t, ids) &&
    (forall id: Id :: id in ids ==> Selected(t, src, cursor, id)) &&
    forall id: Id :: Selected(t, src, cursor, id) && Listed(src)(last[id - 1]) ==> id in ids
  }

  // ---------- one step ----------

  /** The cursor condition reads the same before and after calm writes. */
  lemma SelectedEarlier(t: Table, t': Table, src: Source, c: Id, id: Id)
    requires Calm(t, t', src) && Exists(t, c) && Followable(src)(t[c - 1])
    ensures Selected(t', src, c, id) <==> Selected(t, src, c, id) && Listed(src)(t'[id - 1])
  {
    if Exists(t', id) && Listed(src)(t'[id - 1]) {
      assert SameKey(t[id - 1], t'[id - 1]);
      assert PastCursor(t', c)(t'[id - 1]) == PastCursor(t, c)(t[id - 1]);
    } else if Exists(t, id) {
      assert Exists(t', id);
    }
  }

  lemma OrderedEarlier(t: Table, t': Table, src: Source, ids: seq<Id>)
    requires Calm(t, t', src) && AllExist(t', ids) && Ordered(t', ids)
    requires forall i :: 0 <= i < |ids| ==> Exists(t, ids[i]) && Followable(src)(t[ids[i] - 1])
    ensures AllExist(t, ids) && Ordered(t, ids)
  {
    forall i, j | 0 <= i < j < |ids|
      ensures Above(t, ids[i], ids[j])
    {
      assert Above(t', ids[i], ids[j]);
    }
  }

  lemma OrderedConcat(t: Table, a: seq<Id>, b: seq<Id>)
    requires AllExist(t, a) && AllExist(t, b) && Ordered(t, a) && Ordered(t, b)
    requires forall i, j :: 0 <= i < |a| && 0 <= j < |b| ==> Above(t, a[i], b[j])
    ensures AllExist(t, a + b) && Ordered(t, a + b)
  {}

  /** What the page shows and leaves: the first ids of the listing, and those the
      cursor's own query selects in the same table. */
  lemma PageParts(t: Table, src: Source, limit: nat, cursor: Id)
    requires limit >= 1 && Inv(t) && ThreadPage(t, src, limit, cursor).hasMore
    ensures var page := ThreadPage(t, src, limit, cursor);
            var c, left := page.nextCursor, Ranked(t, Wanted(t, src, page.nextCursor), |t|);
            Exists(t, c) && Followable(src)(t[c - 1]) && |left| >= 1 &&
            Ranked(t, Wanted(t, src, cursor), |t|) == page.ids + left
  {
    var all := Ranked(t, Wanted(t, src, cursor), |t|);
    RankedMeaning(t, Wanted(t, src, cursor), |t|);
    NextPageIsTheRest(t, src, cursor, limit - 1);
    var c := all[limit - 1];
    assert c in all && Wanted(t, src, cursor)(t[c - 1]);
    assert Listed(src)(t[c - 1]) && Followable(src)(t[c - 1]);
    assert all == all[..limit] + all[limit..];
  }

  lemma OrderedParts(t: Table, a: seq<Id>, b: seq<Id>)
    requires AllExist(t, a + b) && Ordered(t, a + b)
    ensures AllExist(t, a) && AllExist(t, b) && Ordered(t, a) && Ordered(t, b)
    ensures forall i, j :: 0 <= i < |a| && 0 <= j < |b| ==> Above(t, a[i], b[j])
  {
    assert forall i :: 0 <= i < |a| ==> (a + b)[i] == a[i];
    assert forall j :: 0 <= j < |b| ==> (a + b)[|a| + j] == b[j];
  }

  lemma PageMembers(t: Table, src: Source, limit: nat, cursor: Id, id: Id)
    requires limit >= 1 && Inv(t) && ThreadPage(t, src, limit, cursor).hasMore
    ensures var page := ThreadPage(t, src, limit, cursor);
            Exists(t, page.nextCursor) && Followable(src)(t[page.nextCursor - 1]) &&
            (Selected(t, src, cursor, id) <==> id in page.ids || Selected(t, src, page.nextCursor, id))
  {
    var page := ThreadPage(t, src, limit, cursor);
    var left := Ranked(t, Wanted(t, src, page.nextCursor), |t|);
    PageParts(t, src, limit, cursor);
    RankedMeaning(t, Wanted(t, src, cursor), |t|);
    RankedMeaning(t, Wanted(t, src, page.nextCursor), |t|);
    assert id in page.ids + left <==> id in page.ids || id in left;
  }

  /** The page, then the rest of the walk, goes down in the order of the first table. */
  lemma StepDescends(t: Table, t': Table, src: Source, limit: nat, cursor: Id, rest: seq<Id>)
    requires limit >= 1 && Inv(t) && Calm(t, t', src) && ThreadPage(t, src, limit, cursor).hasMore
    requires AllExist(t', rest) && Ordered(t', rest)
    requires forall id: Id :: id in rest ==> Selected(t', src, ThreadPage(t, src, limit, cursor).nextCursor, id)
    ensures var ids := ThreadPage(t, src, limit, cursor).ids + rest; AllExist(t, ids) && Ordered(t, ids)
  {
    var page := ThreadPage(t, src, limit, cursor);
    var c := page.nextCursor;
    var left := Ranked(t, Wanted(t, src, c), |t|);
    PageParts(t, src, limit, cursor);
    RankedMeaning(t, Wanted(t, src, cursor), |t|);
    RankedMeaning(t, Wanted(t, src, c), |t|);
    OrderedParts(t, page.ids, left);
    forall j | 0 <= j < |rest|
      ensures rest[j] in left && Exists(t, rest[j]) && Followable(src)(t[rest[j] - 1])
    {
      assert rest[j] in rest;
      SelectedEarlier(t, t', src, c, rest[j]);
    }
    OrderedEarlier(t, t', src, rest);
    forall i, j | 0 <= i < |page.ids| && 0 <= j < |rest|
      ensures Above(t, page.ids[i], rest[j])
    {
      var k :| 0 <= k < |left| && left[k] == rest[j];
    }
    OrderedConcat(t, page.ids, rest);
  }

  lemma StepSelects(t: Table, t': Table, src: Source, limit: nat, cursor: Id, rest: seq<Id>, id: Id)
    requires limit >= 1 && Inv(t) && Calm(t, t', src) && ThreadPage(t, src, limit, cursor).hasMore
    requires id in rest ==> Selected(t', src, ThreadPage(t, src, limit, cursor).nextCursor, id)
    requires id in ThreadPage(t, src, limit, cursor).ids + rest
    ensures Selected(t, src, cursor, id)
  {
    PageMembers(t, src, limit, cursor, id);
    if id in rest {
      SelectedEarlier(t, t', src, ThreadPage(t, src, limit, cursor).nextCursor, id);
    }
  }

  lemma StepMissesNothing(t: Table, t': Table, last: Table, src: Source, limit: nat, cursor: Id,
                          rest: seq<Id>, id: Id)
    requires limit >= 1 && Inv(t) && Calm(t, t', src) && Calm(t', last, src)
    requires ThreadPage(t, src, limit, cursor).hasMore && Selected(t, src, cursor, id)
    requires Exists(last, id) && Listed(src)(last[id - 1])
    requires Selected(t', src, ThreadPage(t, src, limit, cursor).nextCursor, id) ==> id in rest
    ensures id in ThreadPage(t, src, limit, cursor).ids + rest
  {
    PageMembers(t, src, limit, cursor, id);
    if id !in ThreadPage(t, src, limit, cursor).ids {
      SelectedEarlier(t, t', src, ThreadPage(t, src, limit, cursor).nextCursor, id);
    }
  }

  lemma WalkStep(t: Table, t': Table, last: Table, src: Source, limit: nat, cursor: Id, rest: seq<Id>)
    requires limit >= 1 && Inv(t) && Calm(t, t', src) && ThreadPage(t, src, limit, cursor).hasMore
    requires Shows(t', last, src, ThreadPage(t, src, limit, cursor).nextCursor, rest)
    ensures Shows(t, last, src, cursor, ThreadPage(t, src, limit, cursor).ids + rest)
  {
    var ids := ThreadPage(t, src, limit, cursor).ids + rest;
    CalmTransitive(t, t', last, src);
    StepDescends(t, t', src, limit, cursor, rest);
    forall id: Id | id in ids
      ensures Selected(t, src, cursor, id)
    {
      StepSelects(t, t', src, limit, cursor, rest, id);
    }
    forall id: Id | Selected(t, src, cursor, id) && Listed(src)(last[id - 1])
      ensures id in ids
    {
      StepMissesNothing(t, t', last, src, limit, cursor, rest, id);
    }
  }

  lemma LastPageShows(t: Table, src: Source, limit: nat, cursor: Id)
    requires limit >= 1 && !ThreadPage(t, src, limit, cursor).hasMore
    ensures Shows(t, t, src, cursor, ThreadPage(t, src, limit, cursor).ids)
  {
    RankedMeaning(t, Wanted(t, src, cursor), |t|);
  }

  lemma {:induction false} WalkOnShows(t: Table, batches: seq<seq<Op>>, src: Source, limit: nat, cursor: Id)
    requires limit >= 1 && Inv(t) && QuietBatches(t, src, batches)
    ensures Shows(t, TableAtEnd(t, batches, src, limit, cursor), src, cursor,
                  Flatten(WalkOn(t, batches, src, limit, cursor)))
    decreases |batches|, |Ranked(t, Wanted(t, src, cursor), |t|)|
  {
    var page := ThreadPage(t, src, limit, cursor);
    var pages := WalkOn(t, batches, src, limit, cursor);
    if !page.hasMore {
      assert Flatten(pages[1..]) == [] && page.ids + [] == page.ids;
      LastPageShows(t, src, limit, cursor);
    } else if batches == [] {
      NextPageIsTheRest(t, src, cursor, limit - 1);
      WalkOnShows(t, [], src, limit, page.nextCursor);
      assert pages[1..] == WalkOn(t, [], src, limit, page.nextCursor);
      WalkStep(t, t, t, src, limit, cursor, Flatten(pages[1..]));
    } else {
      var t' := Run(t, batches[0]);
      RunKeepsInv(t, batches[0]);
      QuietOpsAreCalm(t, src, batches[0]);
      WalkOnShows(t', batches[1..], src, limit, page.nextCursor);
      assert pages[1..] == WalkOn(t', batches[1..], src, limit, page.nextCursor);
      WalkStep(t, t', TableAtEnd(t, batches, src, limit, cursor), src, limit, cursor, Flatten(pages[1..]));
    }
  }

  /** Messages may be sent, edited, deleted, pinned and unpinned between the pages, as
      long as nobody replies to a thread the listing could show: the walk goes strictly
      down, so it repeats nothing, shows only threads listed when it started, and shows
      every one of them that is still listed when it ends. */
  lemma WalkWithWrites(t: Table, batches: seq<seq<Op>>, src: Source, limit: int)
    requires Inv(t) && QuietBatches(t, src, batches)
    ensures var ids := Flatten(WalkOn(t, batches, src, ThreadPageSize(limit), 0));
            var last := TableAtEnd(t, batches, src, ThreadPageSize(limit), 0);
            AllExist(t, ids) && Ordered(t, ids) && Extends(t, last) &&
            (forall id: Id :: id in ids ==> Exists(t, id) && Listed(src)(t[id - 1])) &&
            forall id: Id :: Exists(last, id) && Listed(src)(last[id - 1]) ==> id in ids
  {
    var last := TableAtEnd(t, batches, src, ThreadPageSize(limit), 0);
    WalkOnShows(t, batches, src, ThreadPageSize(limit), 0);
    forall id: Id | Exists(last, id) && Listed(src)(last[id - 1])
      ensures Selected(t, src, 0, id)
    {}
  }

  // ---------- a reply between two pages ----------

  /** The row is below the key (at, c). */
  predicate Below(m: Message, at: Time, c: Id) {
    m.lastReplyAt.Some? && (m.lastReplyAt.value < at || (m.lastReplyAt.value == at && m.id < c))
  }

  /** A reply to x at `now`, while the cursor is on c. If it is the cursor's own thread
      that moves, every other listed thread must be on the same side of it as before.
      If another thread moves that could be shown, it must have been below the cursor
      exactly when it is now. */
  predicate ReplyIsHarmless(t: Table, src: Source, c: Id, x: Id, now: Time)
    requires Exists(t, c) && Exists(t, x) && t[c - 1].lastReplyAt.Some?
  {
    if x == c then
      forall i :: 0 <= i < |t| && Listed(src)(t[i]) && t[i].id != c ==>
        (Wanted(t, src, c)(t[i]) <==> Below(t[i], now, c))
    else
      Followable(src)(t[x - 1]) && t[x - 1].deletedAt.None? ==>
        (Wanted(t, src, c)(t[x - 1]) <==> Below(t[x - 1].(lastReplyAt := Some(now)), t[c - 1].lastReplyAt.value, c))
  }

  /** Row id is selected once x has been replied to at `now`. */
  predicate SelectedThen(t: Table, src: Source, c: Id, x: Id, now: Time, id: Id)
    requires Exists(t, c) && Exists(t, x) && t[c - 1].lastReplyAt.Some?
  {
    Exists(t, id) &&
    if x == c then id != c && Listed(src)(t[id - 1]) && Below(t[id - 1], now, c)
    else if id == x then
      Followable(src)(t[x - 1]) && t[x - 1].deletedAt.None? &&
      Below(t[x - 1].(lastReplyAt := Some(now)), t[c - 1].lastReplyAt.value, c)
    else Selected(t, src, c, id)
  }

  /** A reply to x changes x's row and adds a row that no listing shows. */
  predicate ReplyWasMade(t: Table, t': Table, x: Id, now: Time)
    requires Exists(t, x)
  {
    |t'| == |t| + 1 && t'[|t|].replyCount == 0 && t[x - 1].replyCount >= 0 &&
    forall i :: 0 <= i < |t| ==> t'[i] == if i == x - 1 then Replied(t[i], now) else t[i]
  }

  lemma CreateMakesTheReply(t: Table, d: Draft, now: Time)
    requires Inv(t) && d.parent.Some? && Exists(t, d.parent.value)
    ensures ReplyWasMade(t, Apply(t, Create(d, now)), d.parent.value, now)
  {
    assert CounterMatches(t, t[d.parent.value - 1]);
  }

  lemma SelectedAfterReply(t: Table, t': Table, src: Source, c: Id, x: Id, now: Time, id: Id)
    requires Inv(t) && Exists(t, c) && Listed(src)(t[c - 1]) && t[c - 1].lastReplyAt.Some?
    requires Exists(t, x) && ReplyWasMade(t, t', x, now)
    ensures Selected(t', src, c, id) <==> SelectedThen(t, src, c, x, now, id)
  {
    if Exists(t, id) {
      assert t[id - 1].id == id;
      assert t'[id - 1] == if id == x then Replied(t[x - 1], now) else t[id - 1];
    }
  }

  lemma HarmlessAt(t: Table, src: Source, c: Id, x: Id, now: Time, id: Id)
    requires Inv(t) && Exists(t, c) && Exists(t, x) && t[c - 1].lastReplyAt.Some?
    requires Exists(t, id) && ReplyIsHarmless(t, src, c, x, now)
    ensures SelectedThen(t, src, c, x, now, id) <==> Selected(t, src, c, id)
  {
    var m := t[id - 1];
    assert m.id == id && (Listed(src)(m) ==> Followable(src)(m) && m.deletedAt.None?);
    assert Selected(t, src, c, id) <==> Listed(src)(m) && Below(m, t[c - 1].lastReplyAt.value, c);
    if x == c && Listed(src)(m) && id != c {
      assert Wanted(t, src, c)(m) <==> Below(m, now, c);
    }
  }

  lemma HarmlessIff(t: Table, src: Source, c: Id, x: Id, now: Time)
    requires Inv(t) && Exists(t, c) && Exists(t, x) && t[c - 1].lastReplyAt.Some?
    ensures (forall id: Id :: SelectedThen(t, src, c, x, now, id) <==> Selected(t, src, c, id))
       <==> ReplyIsHarmless(t, src, c, x, now)
  {
    if ReplyIsHarmless(t, src, c, x, now) {
      forall id: Id
        ensures SelectedThen(t, src, c, x, now, id) <==> Selected(t, src, c, id)
      {
        if Exists(t, id) {
          HarmlessAt(t, src, c, x, now, id);
        }
      }
    }
    if forall id: Id :: SelectedThen(t, src, c, x, now, id) <==> Selected(t, src, c, id) {
      forall i | 0 <= i < |t| && Listed(src)(t[i]) && t[i].id != c && x == c
        ensures Wanted(t, src, c)(t[i]) <==> Below(t[i], now, c)
      {
        assert SelectedThen(t, src, c, x, now, i + 1) <==> Selected(t, src, c, i + 1);
      }
      assert SelectedThen(t, src, c, x, now, x) <==> Selected(t, src, c, x);
    }
  }

  /** The next page's query selects the same threads as before the reply exactly when
      the reply is harmless. */
  lemma ReplyKeepsTheRestIff(t: Table, src: Source, c: Id, d: Draft, now: Time)
    requires Inv(t) && Exists(t, c) && Listed(src)(t[c - 1])
    requires d.parent.Some? && Exists(t, d.parent.value)
    ensures t[c - 1].lastReplyAt.Some?
    ensures (forall id: Id :: Selected(Apply(t, Create(d, now)), src, c, id) <==> Selected(t, src, c, id))
       <==> ReplyIsHarmless(t, src, c, d.parent.value, now)
  {
    RepliedRowsHaveATime(t, c - 1);
    CreateMakesTheReply(t, d, now);
    forall id: Id
      ensures Selected(Apply(t, Create(d, now)), src, c, id) <==> SelectedThen(t, src, c, d.parent.value, now, id)
    {
      SelectedAfterReply(t, Apply(t, Create(d, now)), src, c, d.parent.value, now, id);
    }
    HarmlessIff(t, src, c, d.parent.value, now);
  }

  predicate ClockIsPast(t: Table, now: Time) {
    forall i :: 0 <= i < |t| && t[i].lastReplyAt.Some? ==> t[i].lastReplyAt.value < now
  }

  lemma ListedRow(t: Table, src: Source, c: Id, now: Time, i: nat)
    requires Inv(t) && Exists(t, c) && Listed(src)(t[c - 1]) && ClockIsPast(t, now)
    requires i < |t| && Listed(src)(t[i])
    ensures Below(t[i], now, c)
    ensures i + 1 != c ==> (Wanted(t, src, c)(t[i]) <==> Above(t, c, i + 1))
  {
    RepliedRowsHaveATime(t, i);
    RepliedRowsHaveATime(t, c - 1);
    assert t[i].id == i + 1;
  }

  lemma OwnReplyIsHarmlessIff(t: Table, src: Source, c: Id, now: Time)
    requires Inv(t) && Exists(t, c) && Listed(src)(t[c - 1]) && t[c - 1].lastReplyAt.Some? && ClockIsPast(t, now)
    ensures ReplyIsHarmless(t, src, c, c, now)
       <==> forall y :: Exists(t, y) && Listed(src)(t[y - 1]) && y != c ==> Above(t, c, y)
  {
    forall i | 0 <= i < |t| && Listed(src)(t[i])
      ensures t[i].id == i + 1 && Below(t[i], now, c)
      ensures i + 1 != c ==> (Wanted(t, src, c)(t[i]) <==> Above(t, c, i + 1))
    {
      ListedRow(t, src, c, now, i);
    }
    if ReplyIsHarmless(t, src, c, c, now) {
      forall y | Exists(t, y) && Listed(src)(t[y - 1]) && y != c
        ensures Above(t, c, y)
      {
        assert t[y - 1].id != c;
      }
    }
  }

  /** With the clock past every reply time: a reply between two pages changes what the
      next page selects unless it goes to a thread that is not below the cursor - and,
      if that is the cursor's own, unless no other listed thread is above it. So a reply
      to the cursor's thread brings back every thread already shown before it, and a
      reply to a thread still to come takes that one away. */
  lemma NewReplyKeepsTheRestIff(t: Table, src: Source, c: Id, d: Draft, now: Time)
    requires Inv(t) && Exists(t, c) && Listed(src)(t[c - 1]) && ClockIsPast(t, now)
    requires d.parent.Some? && Exists(t, d.parent.value)
    ensures (forall id: Id :: Selected(Apply(t, Create(d, now)), src, c, id) <==> Selected(t, src, c, id))
       <==> if d.parent.value == c then forall y :: Exists(t, y) && Listed(src)(t[y - 1]) && y != c ==> Above(t, c, y)
            else !Selected(t, src, c, d.parent.value)
  {
    ReplyKeepsTheRestIff(t, src, c, d, now);
    if d.parent.value == c {
      OwnReplyIsHarmlessIff(t, src, c, now);
    }
  }
}
