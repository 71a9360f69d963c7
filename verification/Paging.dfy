/** The cursor-paged message lists: List, its "around" window and ListThread
    (server/internal/message/repository.go). */
module Paging {
  import opened Common
  import opened Messages

  /** moderation.FilterSQL: two NOT IN subqueries on the author. A NULL author
      passes NOT IN only when the subquery is empty. */
  datatype Filter = Filter(hidden: set<User>, blocked: set<User>)

  predicate NotIn(author: Option<User>, users: set<User>) {
    users == {} || (author.Some? && author.value !in users)
  }

  function VisibleIn(ch: Channel, f: Filter): Message -> bool {
    (m: Message) =>
      m.channel == ch && (m.parent.None? || m.alsoSend) && NotIn(m.author, f.hidden) && NotIn(m.author, f.blocked)
  }

  function ReplyIn(p: Id, f: Filter): Message -> bool {
    (m: Message) => m.parent == Some(p) && NotIn(m.author, f.hidden) && NotIn(m.author, f.blocked)
  }

  /** The query looks only at columns that are never rewritten. */
  ghost predicate KeyOnly(p: Message -> bool) {
    forall m: Message, n: Message :: SameKey(m, n) ==> p(m) == p(n)
  }

  /** The ids up to hi whose rows match p, highest first. */
  function Newest(t: Table, p: Message -> bool, hi: nat): (ids: seq<Id>)
    requires hi <= |t|
  {
    if hi == 0 then []
    else if p(t[hi - 1]) then [hi] + Newest(t, p, hi - 1)
    else Newest(t, p, hi - 1)
  }

  /** The ids above lo whose rows match p, lowest first. */
  function Oldest(t: Table, p: Message -> bool, lo: nat): (ids: seq<Id>)
    requires lo <= |t|
    decreases |t| - lo
  {
    if lo == |t| then []
    else if p(t[lo]) then [lo + 1] + Oldest(t, p, lo + 1)
    else Oldest(t, p, lo + 1)
  }

  predicate Descending(ids: seq<Id>) {
    forall i, j :: 0 <= i < j < |ids| ==> ids[i] > ids[j]
  }

  predicate Ascending(ids: seq<Id>) {
    forall i, j :: 0 <= i < j < |ids| ==> ids[i] < ids[j]
  }

  lemma {:induction false} NewestMembers(t: Table, p: Message -> bool, hi: nat, id: Id)
    requires hi <= |t|
    ensures id in Newest(t, p, hi) <==> 1 <= id <= hi && p(t[id - 1])
  {
    if hi == 0 {
    } else {
      NewestMembers(t, p, hi - 1, id);
    }
  }

  lemma {:induction false} NewestDescends(t: Table, p: Message -> bool, hi: nat)
    requires hi <= |t|
    ensures Descending(Newest(t, p, hi))
  {
    if hi == 0 {
    } else {
      var older := Newest(t, p, hi - 1);
      NewestDescends(t, p, hi - 1);
      forall k | 0 <= k < |older|
        ensures older[k] < hi
      {
        NewestMembers(t, p, hi - 1, older[k]);
      }
    }
  }

  lemma NewestMeaning(t: Table, p: Message -> bool, hi: nat)
    requires hi <= |t|
    ensures Descending(Newest(t, p, hi))
    ensures forall id :: id in Newest(t, p, hi) <==> 1 <= id <= hi && p(t[id - 1])
  {
    NewestDescends(t, p, hi);
    forall id: Id
      ensures id in Newest(t, p, hi) <==> 1 <= id <= hi && p(t[id - 1])
    {
      NewestMembers(t, p, hi, id);
    }
  }

  lemma {:induction false} OldestMembers(t: Table, p: Message -> bool, lo: nat, id: Id)
    requires lo <= |t|
    ensures id in Oldest(t, p, lo) <==> lo < id <= |t| && p(t[id - 1])
    decreases |t| - lo
  {
    if lo == |t| {
    } else {
      OldestMembers(t, p, lo + 1, id);
    }
  }

  lemma {:induction false} OldestAscends(t: Table, p: Message -> bool, lo: nat)
    requires lo <= |t|
    ensures Ascending(Oldest(t, p, lo))
    decreases |t| - lo
  {
    if lo == |t| {
    } else {
      var newer := Oldest(t, p, lo + 1);
      OldestAscends(t, p, lo + 1);
      forall k | 0 <= k < |newer|
        ensures newer[k] > lo + 1
      {
        OldestMembers(t, p, lo + 1, newer[k]);
      }
    }
  }

  lemma OldestMeaning(t: Table, p: Message -> bool, lo: nat)
    requires lo <= |t|
    ensures Ascending(Oldest(t, p, lo))
    ensures forall id :: id in Oldest(t, p, lo) <==> lo < id <= |t| && p(t[id - 1])
  {
    OldestAscends(t, p, lo);
    forall id: Id
      ensures id in Oldest(t, p, lo) <==> lo < id <= |t| && p(t[id - 1])
    {
      OldestMembers(t, p, lo, id);
    }
  }

  // ---------- one page ----------

  datatype Page = Page(ids: seq<Id>, hasMore: bool, hasNewer: bool, nextCursor: Id)

  datatype Direction = Before | After | Around

  function PageSize(limit: int): (n: nat)
    ensures 1 <= n <= 100
  {
    if limit <= 0 || limit > 100 then 50 else limit
  }

  /** The highest id a "before" query may return; cursor 0 is the empty string. */
  function Ceiling(t: Table, cursor: Id): (hi: nat)
    ensures hi <= |t|
  {
    if cursor == 0 || cursor > |t| then |t| else cursor - 1
  }

  function Floor(t: Table, cursor: Id): (lo: nat)
    ensures lo <= |t|
  {
    if cursor > |t| then |t| else cursor
  }

  /** Fetch limit + 1 rows, keep limit, and report whether the extra one came. */
  function Trim(all: seq<Id>, limit: nat): Page
    requires limit >= 1
  {
    if |all| > limit then Page(all[..limit], true, false, all[limit - 1])
    else Page(all, false, false, 0)
  }

  function PageBefore(t: Table, p: Message -> bool, limit: nat, cursor: Id): Page
    requires limit >= 1
  {
    Trim(Newest(t, p, Ceiling(t, cursor)), limit)
  }

  function PageAfter(t: Table, p: Message -> bool, limit: nat, cursor: Id): Page
    requires limit >= 1
  {
    Trim(Oldest(t, p, Floor(t, cursor)), limit)
  }

  // ---------- splitting a listing at one of its ids ----------

  lemma {:induction false} NewestSplit(t: Table, p: Message -> bool, hi: nat, k: nat)
    requires hi <= |t| && k < |Newest(t, p, hi)|
    ensures var ids := Newest(t, p, hi);
            1 <= ids[k] <= hi && p(t[ids[k] - 1]) && ids[k + 1..] == Newest(t, p, ids[k] - 1)
  {
    if p(t[hi - 1]) {
      assert Newest(t, p, hi)[1..] == Newest(t, p, hi - 1);
      if k > 0 {
        NewestSplit(t, p, hi - 1, k - 1);
        assert Newest(t, p, hi)[k + 1..] == Newest(t, p, hi - 1)[k..];
      }
    } else {
      NewestSplit(t, p, hi - 1, k);
    }
  }

  lemma {:induction false} OldestSplit(t: Table, p: Message -> bool, lo: nat, k: nat)
    requires lo <= |t| && k < |Oldest(t, p, lo)|
    ensures var ids := Oldest(t, p, lo); lo < ids[k] <= |t| && p(t[ids[k] - 1]) && ids[k + 1..] == Oldest(t, p, ids[k])
    decreases |t| - lo
  {
    if p(t[lo]) {
      assert Oldest(t, p, lo)[1..] == Oldest(t, p, lo + 1);
      if k > 0 {
        OldestSplit(t, p, lo + 1, k - 1);
        assert Oldest(t, p, lo)[k + 1..] == Oldest(t, p, lo + 1)[k..];
      }
    } else {
      OldestSplit(t, p, lo + 1, k);
    }
  }

  /** Writes never change what was visible: only new, higher ids can appear. */
  lemma {:induction false} NewestStable(t: Table, t': Table, p: Message -> bool, hi: nat)
    requires hi <= |t| && Extends(t, t') && KeyOnly(p)
    ensures Newest(t, p, hi) == Newest(t', p, hi)
  {
    if hi == 0 {
    } else {
      assert SameKey(t[hi - 1], t'[hi - 1]);
      NewestStable(t, t', p, hi - 1);
    }
  }

  lemma {:induction false} OldestStable(t: Table, t': Table, p: Message -> bool, lo: nat)
    requires lo <= |t| && Extends(t, t') && KeyOnly(p)
    ensures Oldest(t', p, lo) == Oldest(t, p, lo) + Oldest(t', p, |t|)
    decreases |t| - lo
  {
    if lo == |t| {
    } else {
      assert SameKey(t[lo], t'[lo]);
      OldestStable(t, t', p, lo + 1);
    }
  }

  // ---------- whole walks, with writes between the pages ----------

  function Flatten(pages: seq<Page>): seq<Id> {
    if pages == [] then [] else pages[0].ids + Flatten(pages[1..])
  }

  /** The table after the first batch of writes, and the batches still to come. */
  function TableAfter(t: Table, batches: seq<seq<Op>>): Table {
    if batches == [] then t else Run(t, batches[0])
  }

  function Later(batches: seq<seq<Op>>): seq<seq<Op>> {
    if batches == [] then [] else batches[1..]
  }

  lemma TableAfterExtends(t: Table, batches: seq<seq<Op>>)
    ensures Extends(t, TableAfter(t, batches))
  {
    if batches != [] {
      RunExtends(t, batches[0]);
    }
  }

  /** A client follows NextCursor until HasMore is false; batches[k] is whatever
      was written between page k and page k + 1. */
  function WalkBack(t: Table, batches: seq<seq<Op>>, p: Message -> bool, limit: nat, cursor: Id): seq<Page>
    requires limit >= 1
    decreases if cursor == 0 then |t| + 1 else cursor
  {
    var page := PageBefore(t, p, limit, cursor);
    if !page.hasMore then [page]
    else
      NewestSplit(t, p, Ceiling(t, cursor), limit - 1);
      [page] + WalkBack(TableAfter(t, batches), Later(batches), p, limit, page.nextCursor)
  }

  /** max(1, ceil(n / limit)) */
  function Pages(n: nat, limit: nat): nat
    requires limit >= 1
  {
    if n <= limit then 1 else 1 + Pages(n - limit, limit)
  }

  lemma {:induction false} PagesMeaning(n: nat, limit: nat)
    requires limit >= 1
    ensures Pages(n, limit) >= 1 && n <= Pages(n, limit) * limit
    ensures n > 0 ==> (Pages(n, limit) - 1) * limit < n
  {
    if n <= limit {
    } else {
      PagesMeaning(n - limit, limit);
    }
  }

  lemma BackStep(t: Table, t': Table, p: Message -> bool, limit: nat, cursor: Id)
    requires limit >= 1 && Extends(t, t') && (KeyOnly(p) || t == t')
    requires PageBefore(t, p, limit, cursor).hasMore
    ensures var page, all := PageBefore(t, p, limit, cursor), Newest(t, p, Ceiling(t, cursor));
            var rest := Newest(t', p, Ceiling(t', page.nextCursor));
            all == page.ids + rest && |page.ids| == limit && |all| > limit && |rest| == |all| - limit
  {
    var all := Newest(t, p, Ceiling(t, cursor));
    NewestSplit(t, p, Ceiling(t, cursor), limit - 1);
    var c := all[limit - 1];
    if t != t' {
      NewestStable(t, t', p, c - 1);
    }
    assert all == all[..limit] + all[limit..];
  }

  /** The backward walk returns exactly the ids visible when it started, newest
      first, each once - whatever is created, edited, deleted, pinned or unpinned
      between pages. (A query that also looks at mutable columns is covered when
      nothing is written.) */
  lemma {:induction false} WalkBackIsExact(t: Table, batches: seq<seq<Op>>, p: Message -> bool, limit: nat, cursor: Id)
    requires limit >= 1 && (KeyOnly(p) || batches == [])
    ensures Flatten(WalkBack(t, batches, p, limit, cursor)) == Newest(t, p, Ceiling(t, cursor))
    decreases if cursor == 0 then |t| + 1 else cursor
  {
    var page := PageBefore(t, p, limit, cursor);
    var pages := WalkBack(t, batches, p, limit, cursor);
    if !page.hasMore {
      assert pages == [page] && Flatten(pages[1..]) == [];
    } else {
      NewestSplit(t, p, Ceiling(t, cursor), limit - 1);
      var t' := TableAfter(t, batches);
      TableAfterExtends(t, batches);
      WalkBackIsExact(t', Later(batches), p, limit, page.nextCursor);
      BackStep(t, t', p, limit, cursor);
      assert pages[1..] == WalkBack(t', Later(batches), p, limit, page.nextCursor);
    }
  }

  lemma BackStepLength(t: Table, t': Table, p: Message -> bool, limit: nat, cursor: Id)
    requires limit >= 1 && Extends(t, t') && (KeyOnly(p) || t == t')
    requires PageBefore(t, p, limit, cursor).hasMore
    ensures var n := |Newest(t, p, Ceiling(t, cursor))|;
            n > limit && |Newest(t', p, Ceiling(t', PageBefore(t, p, limit, cursor).nextCursor))| == n - limit
  {
    BackStep(t, t', p, limit, cursor);
  }

  /** One page further, the cursor is lower. */
  lemma WalkBackGoesOn(t: Table, batches: seq<seq<Op>>, p: Message -> bool, limit: nat, cursor: Id)
    requires limit >= 1 && PageBefore(t, p, limit, cursor).hasMore
    ensures var next := PageBefore(t, p, limit, cursor).nextCursor;
            0 < next < (if cursor == 0 then |t| + 1 else cursor) &&
            |WalkBack(t, batches, p, limit, cursor)|
            == 1 + |WalkBack(TableAfter(t, batches), Later(batches), p, limit, next)|
  {
    NewestSplit(t, p, Ceiling(t, cursor), limit - 1);
  }

  lemma PagesGoOn(n: nat, limit: nat)
    requires limit >= 1 && n > limit
    ensures Pages(n, limit) == 1 + Pages(n - limit, limit)
  {}

  /** And it takes the least possible number of pages. */
  lemma {:induction false} WalkBackLength(t: Table, batches: seq<seq<Op>>, p: Message -> bool, limit: nat, cursor: Id)
    requires limit >= 1 && (KeyOnly(p) || batches == [])
    ensures |WalkBack(t, batches, p, limit, cursor)| == Pages(|Newest(t, p, Ceiling(t, cursor))|, limit)
    decreases if cursor == 0 then |t| + 1 else cursor
  {
    var page := PageBefore(t, p, limit, cursor);
    if page.hasMore {
      var t' := TableAfter(t, batches);
      TableAfterExtends(t, batches);
      WalkBackGoesOn(t, batches, p, limit, cursor);
      WalkBackLength(t', Later(batches), p, limit, page.nextCursor);
      BackStepLength(t, t', p, limit, cursor);
      PagesGoOn(|Newest(t, p, Ceiling(t, cursor))|, limit);
    }
  }

  /** The table when the backward walk's last page was served. */
  function TableAtEnd(t: Table, batches: seq<seq<Op>>, p: Message -> bool, limit: nat, cursor: Id): Table
    requires limit >= 1
    decreases if cursor == 0 then |t| + 1 else cursor
  {
    var page := PageBefore(t, p, limit, cursor);
    if !page.hasMore then t
    else
      NewestSplit(t, p, Ceiling(t, cursor), limit - 1);
      TableAtEnd(TableAfter(t, batches), Later(batches), p, limit, page.nextCursor)
  }

  /** The query also asks for live rows: a write can end a match but
      never begin one. */
  ghost predicate Fading(p: Message -> bool) {
    forall m: Message, n: Message ::
      SameKey(m, n) && (m.deletedAt.Some? ==> n.deletedAt.Some?) && p(n) ==> p(m)
  }

  lemma MatchedBefore(t: Table, t': Table, p: Message -> bool, id: Id)
    requires Extends(t, t') && Fading(p) && Exists(t, id) && p(t'[id - 1])
    ensures p(t[id - 1])
  {
    assert SameKey(t[id - 1], t'[id - 1]);
  }

  lemma FirstIds(t: Table, p: Message -> bool, limit: nat, cursor: Id, id: Id)
    requires limit >= 1 && PageBefore(t, p, limit, cursor).hasMore
    ensures 1 <= PageBefore(t, p, limit, cursor).nextCursor <= Ceiling(t, cursor)
    ensures var page := PageBefore(t, p, limit, cursor);
            id in page.ids <==> page.nextCursor <= id <= Ceiling(t, cursor) && p(t[id - 1])
    ensures Descending(PageBefore(t, p, limit, cursor).ids)
  {
    var all := Newest(t, p, Ceiling(t, cursor));
    var c := all[limit - 1];
    NewestDescends(t, p, Ceiling(t, cursor));
    NewestMembers(t, p, Ceiling(t, cursor), c);
    NewestMembers(t, p, Ceiling(t, cursor), id);
    if id in all {
      var k :| 0 <= k < |all| && all[k] == id;
      assert k < limit ==> all[..limit][k] == id;
    }
  }

  lemma DescendingConcat(a: seq<Id>, b: seq<Id>)
    requires Descending(a) && Descending(b)
    requires forall x, y :: x in a && y in b ==> x > y
    ensures Descending(a + b)
  {
    forall i, j | 0 <= i < j < |a + b|
      ensures (a + b)[i] > (a + b)[j]
    {
      if i < |a| <= j {
        assert a[i] in a && b[j - |a|] in b;
      }
    }
  }

  /** A walk over matches that writes can end: it goes strictly down, returns only ids
      that matched when it started, and every id that still matches when it ends. */
  ghost predicate WalksFading(t: Table, last: Table, p: Message -> bool, hi: nat, ids: seq<Id>)
    requires hi <= |t|
  {
    Extends(t, last) && Descending(ids) &&
    (forall id: Id :: id in ids ==> 1 <= id <= hi && p(t[id - 1])) &&
    forall id: Id :: 1 <= id <= hi && p(last[id - 1]) ==> id in ids
  }

  /** What a page and the rest of the walk return matched when the page was served. */
  lemma FadingIdsMatched(t: Table, t': Table, p: Message -> bool, limit: nat, cursor: Id, rest: seq<Id>, id: Id)
    requires limit >= 1 && Fading(p) && PageBefore(t, p, limit, cursor).hasMore && Extends(t, t')
    requires id in rest ==> 1 <= id <= Ceiling(t', PageBefore(t, p, limit, cursor).nextCursor) && p(t'[id - 1])
    requires id in PageBefore(t, p, limit, cursor).ids + rest
    ensures 1 <= id <= Ceiling(t, cursor) && p(t[id - 1])
  {
    FirstIds(t, p, limit, cursor, id);
    if id in rest {
      MatchedBefore(t, t', p, id);
    }
  }

  /** What still matches at the end is on the page or in the rest. */
  lemma SurvivorsAreReturned(t: Table, t': Table, last: Table, p: Message -> bool, limit: nat, cursor: Id,
                             rest: seq<Id>, id: Id)
    requires limit >= 1 && Fading(p) && PageBefore(t, p, limit, cursor).hasMore && Extends(t, t') && Extends(t', last)
    requires 1 <= id <= Ceiling(t', PageBefore(t, p, limit, cursor).nextCursor) && p(last[id - 1]) ==> id in rest
    requires 1 <= id <= Ceiling(t, cursor) && |t| <= |last| && p(last[id - 1])
    ensures id in PageBefore(t, p, limit, cursor).ids + rest
  {
    ExtendsTransitive(t, t', last);
    FirstIds(t, p, limit, cursor, id);
    MatchedBefore(t, last, p, id);
  }

  /** The page is above the rest. */
  lemma FadingDescends(t: Table, t': Table, p: Message -> bool, limit: nat, cursor: Id, rest: seq<Id>)
    requires limit >= 1 && PageBefore(t, p, limit, cursor).hasMore && Extends(t, t') && Descending(rest)
    requires forall id: Id :: id in rest ==> id <= Ceiling(t', PageBefore(t, p, limit, cursor).nextCursor)
    ensures Descending(PageBefore(t, p, limit, cursor).ids + rest)
  {
    var page := PageBefore(t, p, limit, cursor);
    FirstIds(t, p, limit, cursor, 0);
    forall x, y | x in page.ids && y in rest
      ensures x > y
    {
      FirstIds(t, p, limit, cursor, x);
    }
    DescendingConcat(page.ids, rest);
  }

  lemma FadingAllMatched(t: Table, t': Table, p: Message -> bool, limit: nat, cursor: Id, rest: seq<Id>)
    requires limit >= 1 && Fading(p) && PageBefore(t, p, limit, cursor).hasMore && Extends(t, t')
    requires var hi := Ceiling(t', PageBefore(t, p, limit, cursor).nextCursor);
             forall id: Id :: id in rest ==> 1 <= id <= hi && p(t'[id - 1])
    ensures var ids, hi := PageBefore(t, p, limit, cursor).ids + rest, Ceiling(t, cursor);
            forall id: Id :: id in ids ==> 1 <= id <= hi && p(t[id - 1])
  {
    forall id: Id | id in PageBefore(t, p, limit, cursor).ids + rest
      ensures 1 <= id <= Ceiling(t, cursor) && p(t[id - 1])
    {
      FadingIdsMatched(t, t', p, limit, cursor, rest, id);
    }
  }

  lemma FadingNoneLost(t: Table, t': Table, last: Table, p: Message -> bool, limit: nat, cursor: Id, rest: seq<Id>)
    requires limit >= 1 && Fading(p) && PageBefore(t, p, limit, cursor).hasMore
    requires Extends(t, t') && Extends(t', last) && |t| <= |last|
    requires var hi := Ceiling(t', PageBefore(t, p, limit, cursor).nextCursor);
             forall id: Id :: 1 <= id <= hi && p(last[id - 1]) ==> id in rest
    ensures var ids, hi := PageBefore(t, p, limit, cursor).ids + rest, Ceiling(t, cursor);
            forall id: Id :: 1 <= id <= hi && p(last[id - 1]) ==> id in ids
  {
    forall id: Id | 1 <= id <= Ceiling(t, cursor) && p(last[id - 1])
      ensures id in PageBefore(t, p, limit, cursor).ids + rest
    {
      SurvivorsAreReturned(t, t', last, p, limit, cursor, rest, id);
    }
  }

  lemma FadingStep(t: Table, t': Table, last: Table, p: Message -> bool, limit: nat, cursor: Id, rest: seq<Id>)
    requires limit >= 1 && Fading(p) && PageBefore(t, p, limit, cursor).hasMore && Extends(t, t')
    requires WalksFading(t', last, p, Ceiling(t', PageBefore(t, p, limit, cursor).nextCursor), rest)
    ensures WalksFading(t, last, p, Ceiling(t, cursor), PageBefore(t, p, limit, cursor).ids + rest)
  {
    ExtendsTransitive(t, t', last);
    FadingDescends(t, t', p, limit, cursor, rest);
    FadingAllMatched(t, t', p, limit, cursor, rest);
    FadingNoneLost(t, t', last, p, limit, cursor, rest);
  }

  lemma LastPageFades(t: Table, p: Message -> bool, limit: nat, cursor: Id)
    requires limit >= 1 && !PageBefore(t, p, limit, cursor).hasMore
    ensures WalksFading(t, t, p, Ceiling(t, cursor), PageBefore(t, p, limit, cursor).ids)
  {
    NewestMeaning(t, p, Ceiling(t, cursor));
  }

  lemma LastPageEnds(t: Table, batches: seq<seq<Op>>, p: Message -> bool, limit: nat, cursor: Id)
    requires limit >= 1 && !PageBefore(t, p, limit, cursor).hasMore
    ensures Flatten(WalkBack(t, batches, p, limit, cursor)) == PageBefore(t, p, limit, cursor).ids
    ensures TableAtEnd(t, batches, p, limit, cursor) == t
  {
    var page := PageBefore(t, p, limit, cursor);
    assert Flatten([page][1..]) == [] && page.ids + [] == page.ids;
  }

  lemma FlattenGoesOn(t: Table, batches: seq<seq<Op>>, p: Message -> bool, limit: nat, cursor: Id)
    requires limit >= 1 && PageBefore(t, p, limit, cursor).hasMore
    ensures var page, t' := PageBefore(t, p, limit, cursor), TableAfter(t, batches);
            0 < page.nextCursor < (if cursor == 0 then |t| + 1 else cursor) &&
            Flatten(WalkBack(t, batches, p, limit, cursor))
            == page.ids + Flatten(WalkBack(t', Later(batches), p, limit, page.nextCursor)) &&
            TableAtEnd(t, batches, p, limit, cursor) == TableAtEnd(t', Later(batches), p, limit, page.nextCursor)
  {
    NewestSplit(t, p, Ceiling(t, cursor), limit - 1);
    var page, t' := PageBefore(t, p, limit, cursor), TableAfter(t, batches);
    assert WalkBack(t, batches, p, limit, cursor)[1..] == WalkBack(t', Later(batches), p, limit, page.nextCursor);
  }

  lemma {:induction false} WalkBackFades(t: Table, batches: seq<seq<Op>>, p: Message -> bool, limit: nat, cursor: Id)
    requires limit >= 1 && Fading(p)
    ensures WalksFading(t, TableAtEnd(t, batches, p, limit, cursor), p, Ceiling(t, cursor),
                        Flatten(WalkBack(t, batches, p, limit, cursor)))
    decreases if cursor == 0 then |t| + 1 else cursor
  {
    var page := PageBefore(t, p, limit, cursor);
    if !page.hasMore {
      LastPageEnds(t, batches, p, limit, cursor);
      LastPageFades(t, p, limit, cursor);
    } else {
      var t', next := TableAfter(t, batches), page.nextCursor;
      var last := TableAtEnd(t', Later(batches), p, limit, next);
      TableAfterExtends(t, batches);
      FlattenGoesOn(t, batches, p, limit, cursor);
      WalkBackFades(t', Later(batches), p, limit, next);
      FadingStep(t, t', last, p, limit, cursor, Flatten(WalkBack(t', Later(batches), p, limit, next)));
    }
  }

  /** Forward reading (direction "after", and every thread) with writes between
      the pages. `last` is the table when the final page was served. */
  function WalkForward(t: Table, batches: seq<seq<Op>>, p: Message -> bool, limit: nat, cursor: Id)
    : (r: (seq<Page>, Table))
    requires limit >= 1
    decreases |batches|, |t| - Floor(t, cursor)
  {
    var page := PageAfter(t, p, limit, cursor);
    if !page.hasMore then ([page], t)
    else
      OldestSplit(t, p, Floor(t, cursor), limit - 1);
      var (rest, last) := WalkForward(TableAfter(t, batches), Later(batches), p, limit, page.nextCursor);
      ([page] + rest, last)
  }

  lemma ForwardStep(t: Table, last: Table, p: Message -> bool, limit: nat, cursor: Id)
    requires limit >= 1 && KeyOnly(p) && cursor <= |t| && Extends(t, last)
    requires PageAfter(t, p, limit, cursor).hasMore
    ensures var page := PageAfter(t, p, limit, cursor);
            page.nextCursor <= |t| && Oldest(last, p, cursor) == page.ids + Oldest(last, p, page.nextCursor)
  {
    var all := Oldest(t, p, cursor);
    OldestSplit(t, p, cursor, limit - 1);
    assert all == all[..limit] + all[limit..];
    OldestStable(t, last, p, cursor);
    OldestStable(t, last, p, all[limit - 1]);
  }

  /** The forward walk misses nothing and repeats nothing: it returns exactly the
      matching ids above the cursor that exist when its last page is served,
      including those created while it was under way. */
  lemma {:induction false} WalkForwardIsExact(t: Table, batches: seq<seq<Op>>, p: Message -> bool, limit: nat,
                                              cursor: Id)
    requires limit >= 1 && KeyOnly(p) && cursor <= |t|
    ensures var (pages, last) := WalkForward(t, batches, p, limit, cursor);
            Extends(t, last) && Flatten(pages) == Oldest(last, p, cursor)
    decreases |batches|, |t| - Floor(t, cursor)
  {
    var all := Oldest(t, p, cursor);
    var page := PageAfter(t, p, limit, cursor);
    var (pages, last) := WalkForward(t, batches, p, limit, cursor);
    if !page.hasMore {
      assert pages == [page] && Flatten(pages[1..]) == [];
    } else {
      OldestSplit(t, p, cursor, limit - 1);
      var t' := TableAfter(t, batches);
      var (rest, last') := WalkForward(t', Later(batches), p, limit, page.nextCursor);
      TableAfterExtends(t, batches);
      WalkForwardIsExact(t', Later(batches), p, limit, page.nextCursor);
      assert last == last' && pages == [page] + rest && pages[1..] == rest;
      ExtendsTransitive(t, t', last);
      ForwardStep(t, last, p, limit, cursor);
    }
  }

  lemma ExtendsTransitive(a: Table, b: Table, c: Table)
    requires Extends(a, b) && Extends(b, c)
    ensures Extends(a, c)
  {
    forall i | 0 <= i < |a|
      ensures SameKey(a[i], c[i]) && (a[i].deletedAt.Some? ==> c[i].deletedAt.Some?)
    {
      assert SameKey(a[i], b[i]) && SameKey(b[i], c[i]);
    }
  }

  /** Reading a channel's history page by page: exactly the messages visible when
      the reading began, newest first, each once, on max(1, ceil(n / limit)) pages. */
  lemma ChannelHistory(t: Table, batches: seq<seq<Op>>, ch: Channel, f: Filter, limit: int)
    ensures var pages := WalkBack(t, batches, VisibleIn(ch, f), PageSize(limit), 0);
            var ids := Flatten(pages);
            Descending(ids) && |pages| == Pages(|ids|, PageSize(limit)) &&
            forall id: Id :: id in ids <==>
              Exists(t, id) && t[id - 1].channel == ch && (t[id - 1].parent.None? || t[id - 1].alsoSend) &&
              (f.hidden == {} || (t[id - 1].author.Some? && t[id - 1].author.value !in f.hidden)) &&
              (f.blocked == {} || (t[id - 1].author.Some? && t[id - 1].author.value !in f.blocked))
  {
    WalkBackIsExact(t, batches, VisibleIn(ch, f), PageSize(limit), 0);
    WalkBackLength(t, batches, VisibleIn(ch, f), PageSize(limit), 0);
    NewestMeaning(t, VisibleIn(ch, f), |t|);
  }

  /** Reading a thread page by page: exactly the replies that exist when its last
      page is served, oldest first, each once. */
  lemma ThreadHistory(t: Table, batches: seq<seq<Op>>, parent: Id, f: Filter, limit: int)
    ensures var (pages, last) := WalkForward(t, batches, ReplyIn(parent, f), PageSize(limit), 0);
            var ids := Flatten(pages);
            Extends(t, last) && Ascending(ids) &&
            forall id: Id :: id in ids <==>
              Exists(last, id) && last[id - 1].parent == Some(parent) &&
              (f.hidden == {} || (last[id - 1].author.Some? && last[id - 1].author.value !in f.hidden)) &&
              (f.blocked == {} || (last[id - 1].author.Some? && last[id - 1].author.value !in f.blocked))
  {
    WalkForwardIsExact(t, batches, ReplyIn(parent, f), PageSize(limit), 0);
    var (pages, last) := WalkForward(t, batches, ReplyIn(parent, f), PageSize(limit), 0);
    OldestMeaning(last, ReplyIn(parent, f), 0);
  }

  // ---------- the window around a message ----------

  function Reverse<T>(s: seq<T>): (r: seq<T>)
    ensures |r| == |s|
  {
    if s == [] then [] else Reverse(s[1..]) + [s[0]]
  }

  lemma {:induction false} ReverseConcat<T>(a: seq<T>, b: seq<T>)
    ensures Reverse(a + b) == Reverse(b) + Reverse(a)
  {
    if a == [] {
      assert a + b == b;
    } else {
      assert (a + b)[1..] == a[1..] + b;
      ReverseConcat(a[1..], b);
    }
  }

  function HalfLimit(limit: nat): (h: nat)
    ensures 1 <= h
  {
    if limit / 2 < 1 then 25 else limit / 2
  }

  function AroundPage(t: Table, p: Message -> bool, limit: nat, cursor: Id): Page {
    var half := HalfLimit(limit);
    var older := Newest(t, p, Floor(t, cursor));
    var newer := Oldest(t, p, Floor(t, cursor));
    var ids := Reverse(First(newer, half)) + First(older, half);
    Page(ids, |older| > half, |newer| > half, if |older| > half then ids[|ids| - 1] else 0)
  }

  /** Everything visible, newest first, is what is newer than a point (reversed)
      followed by what is not. */
  lemma {:induction false} NewestAtPoint(t: Table, p: Message -> bool, c: nat)
    requires c <= |t|
    ensures Newest(t, p, |t|) == Reverse(Oldest(t, p, c)) + Newest(t, p, c)
    decreases |t| - c
  {
    if c == |t| {
    } else {
      NewestAtPoint(t, p, c + 1);
      if p(t[c]) {
        assert Oldest(t, p, c)[1..] == Oldest(t, p, c + 1);
      }
    }
  }

  /** Cutting the whole listing at its k-th id leaves exactly what the "after"
      query (reversed) and the "before" query at that id return. */
  lemma CutAt(t: Table, p: Message -> bool, k: nat)
    requires k < |Newest(t, p, |t|)|
    ensures var all := Newest(t, p, |t|);
            1 <= all[k] <= |t| && all[..k] == Reverse(Oldest(t, p, all[k])) && all[k + 1..] == Newest(t, p, all[k] - 1)
  {
    var all := Newest(t, p, |t|);
    NewestSplit(t, p, |t|, k);
    NewestAtPoint(t, p, all[k]);
    assert Newest(t, p, all[k]) == [all[k]] + all[k + 1..];
    assert |Oldest(t, p, all[k])| == k;
  }

  /** What the window leaves out on either side. */
  lemma AroundSplits(t: Table, p: Message -> bool, limit: nat, cursor: Id)
    ensures var newer, older, half := Oldest(t, p, Floor(t, cursor)), Newest(t, p, Floor(t, cursor)), HalfLimit(limit);
            Newest(t, p, |t|) == Reverse(newer[|First(newer, half)|..]) + AroundPage(t, p, limit, cursor).ids
                                 + older[|First(older, half)|..]
  {
    NewestAtPoint(t, p, Floor(t, cursor));
    MiddleOut(Oldest(t, p, Floor(t, cursor)), Newest(t, p, Floor(t, cursor)), HalfLimit(limit));
  }

  lemma MiddleOut(newer: seq<Id>, older: seq<Id>, half: nat)
    ensures Reverse(newer) + older
         == Reverse(newer[|First(newer, half)|..]) + (Reverse(First(newer, half)) + First(older, half))
                                      + older[|First(older, half)|..]
  {
    var a, b := First(newer, half), First(older, half);
    var restA, restB := newer[|a|..], older[|b|..];
    assert newer == a + restA && older == b + restB;
    ReverseConcat(a, restA);
    Regroup(Reverse(restA), Reverse(a), b, restB);
  }

  lemma Regroup(w: seq<Id>, x: seq<Id>, y: seq<Id>, z: seq<Id>)
    ensures (w + x) + (y + z) == w + (x + y) + z
  {}

  lemma AroundRest(t: Table, p: Message -> bool, limit: nat, cursor: Id) returns (before: seq<Id>, after: seq<Id>)
    ensures Newest(t, p, |t|) == before + AroundPage(t, p, limit, cursor).ids + after
  {
    var newer, older, half := Oldest(t, p, Floor(t, cursor)), Newest(t, p, Floor(t, cursor)), HalfLimit(limit);
    AroundSplits(t, p, limit, cursor);
    before, after := Reverse(newer[|First(newer, half)|..]), older[|First(older, half)|..];
  }

  /** The window is a contiguous stretch of the visible ids, newest first; it is
      at most twice halfLimit long and its flags say exactly whether ids remain on
      either side. */
  lemma AroundIsWindow(t: Table, p: Message -> bool, limit: nat, cursor: Id) returns (at: nat)
    ensures var w, all := AroundPage(t, p, limit, cursor), Newest(t, p, |t|);
            at + |w.ids| <= |all| && w.ids == all[at..at + |w.ids|] && |w.ids| <= 2 * HalfLimit(limit) &&
            (w.hasNewer <==> at > 0) && (w.hasMore <==> at + |w.ids| < |all|) &&
            if w.hasMore then w.ids != [] && w.nextCursor == w.ids[|w.ids| - 1] else w.nextCursor == 0
  {
    var newer := Oldest(t, p, Floor(t, cursor));
    AroundSplits(t, p, limit, cursor);
    at := |newer| - |First(newer, HalfLimit(limit))|;
  }

  /** Where the window is cut: k ids above the cursor and the rest from it down, each
      side at most half the limit - 25 for a limit of 1 - and that many where more ids
      remain. */
  lemma AroundHalves(t: Table, p: Message -> bool, limit: nat, cursor: Id) returns (k: nat)
    ensures var w, half := AroundPage(t, p, limit, cursor), if limit >= 2 then limit / 2 else 25;
            k <= |w.ids| && (forall i :: 0 <= i < k ==> w.ids[i] > cursor) &&
            (forall i :: k <= i < |w.ids| ==> w.ids[i] <= cursor) &&
            k <= half && (w.hasNewer ==> k == half) &&
            |w.ids| - k <= half && (w.hasMore ==> |w.ids| - k == half)
  {
    var c, half := Floor(t, cursor), HalfLimit(limit);
    var newer, older := First(Oldest(t, p, c), half), First(Newest(t, p, c), half);
    k := |newer|;
    OldestMeaning(t, p, c);
    NewestMeaning(t, p, c);
    forall i | 0 <= i < k
      ensures Reverse(newer)[i] > c
    {
      ReverseAt(newer, i);
      assert newer[k - 1 - i] in Oldest(t, p, c);
    }
    forall i | 0 <= i < |older|
      ensures older[i] <= c
    {
      assert older[i] in Newest(t, p, c);
    }
  }

  lemma {:induction false} ReverseAt<T>(s: seq<T>, i: nat)
    requires i < |s|
    ensures Reverse(s)[i] == s[|s| - 1 - i]
  {
    if i < |s| - 1 {
      ReverseAt(s[1..], i);
    }
  }

  /** A visible message is always in the window opened on it. */
  lemma AroundShowsCursor(t: Table, p: Message -> bool, limit: nat, cursor: Id)
    requires Exists(t, cursor) && p(t[cursor - 1])
    ensures cursor in AroundPage(t, p, limit, cursor).ids
  {
    assert First(Newest(t, p, cursor), HalfLimit(limit))[0] == cursor;
  }

  lemma CutAtPoint(t: Table, p: Message -> bool, before: seq<Id>, x: Id, after: seq<Id>)
    requires Newest(t, p, |t|) == before + [x] + after
    ensures 1 <= x <= |t| && before == Reverse(Oldest(t, p, x)) && after == Newest(t, p, x - 1)
  {
    CutAt(t, p, |before|);
  }

  lemma FirstOf(before: seq<Id>, ids: seq<Id>, after: seq<Id>)
    requires ids != []
    ensures before + ids + after == before + [ids[0]] + (ids[1..] + after)
  {}

  lemma LastIsLeast(before: seq<Id>, ids: seq<Id>, after: seq<Id>)
    requires ids != [] && Descending(before + ids + after)
    ensures ids[|ids| - 1] <= ids[0]
  {
    var all, i := before + ids + after, |before|;
    assert all[i] == ids[0] && all[i + |ids| - 1] == ids[|ids| - 1];
  }

  /** The listing before a stretch of the channel. */
  lemma StretchStart(t: Table, p: Message -> bool, before: seq<Id>, ids: seq<Id>, after: seq<Id>)
    requires ids != [] && Newest(t, p, |t|) == before + ids + after
    ensures 1 <= ids[0] <= |t| && before == Reverse(Oldest(t, p, ids[0]))
  {
    FirstOf(before, ids, after);
    CutAtPoint(t, p, before, ids[0], ids[1..] + after);
  }

  /** The listing after it. */
  lemma StretchEnd(t: Table, p: Message -> bool, before: seq<Id>, ids: seq<Id>, after: seq<Id>)
    requires ids != [] && Newest(t, p, |t|) == before + ids + after
    ensures 1 <= ids[|ids| - 1] <= |t| && after == Newest(t, p, ids[|ids| - 1] - 1)
  {
    CutAtPoint(t, p, before + ids[..|ids| - 1], ids[|ids| - 1], after);
  }

  lemma StretchCuts(t: Table, p: Message -> bool, before: seq<Id>, ids: seq<Id>, after: seq<Id>)
    requires ids != [] && Newest(t, p, |t|) == before + ids + after
    ensures 1 <= ids[|ids| - 1] <= ids[0] <= |t|
    ensures before == Reverse(Oldest(t, p, ids[0])) && after == Newest(t, p, ids[|ids| - 1] - 1)
  {
    StretchStart(t, p, before, ids, after);
    StretchEnd(t, p, before, ids, after);
    NewestDescends(t, p, |t|);
    LastIsLeast(before, ids, after);
  }

  /** What is visible later is what was visible at a point and below, with what is
      newer than the point by then in front. */
  lemma LaterListing(t: Table, last: Table, p: Message -> bool, c: nat)
    requires c <= |t| && Extends(t, last) && KeyOnly(p)
    ensures Newest(last, p, |last|) == Reverse(Oldest(last, p, c)) + Newest(t, p, c)
  {
    NewestAtPoint(last, p, c);
    NewestStable(t, last, p, c);
  }

  lemma CutPrefix(a: seq<Id>, ids: seq<Id>, c: seq<Id>, b: seq<Id>)
    requires a + ids + c == a + b
    ensures b == ids + c
  {
    assert b == (a + b)[|a|..];
    assert ids + c == (a + ids + c)[|a|..];
  }

  /** A stretch of the channel together with everything older. */
  lemma StretchAndOlder(t: Table, p: Message -> bool, before: seq<Id>, ids: seq<Id>, after: seq<Id>)
    requires ids != [] && ids[0] <= |t| && before == Reverse(Oldest(t, p, ids[0]))
    requires Newest(t, p, |t|) == before + ids + after
    ensures Newest(t, p, ids[0]) == ids + after
  {
    NewestAtPoint(t, p, ids[0]);
    CutPrefix(before, ids, after, Newest(t, p, ids[0]));
  }

  /** Walking on from a stretch of the channel in both directions, with any writes
      between any two pages: the "after" walk from the first id, the stretch and the
      "before" walk from the last id make up the channel as it stands when the "after"
      walk ends. Nothing is lost and, the listing being strictly descending, nothing
      is repeated. */
  ghost predicate WalksPartition(t: Table, p: Message -> bool, ids: seq<Id>, n: nat,
                                 fwd: seq<seq<Op>>, back: seq<seq<Op>>)
    requires ids != [] && n >= 1
  {
    var (pages, last) := WalkForward(t, fwd, p, n, ids[0]);
    Extends(t, last) && Descending(Newest(last, p, |last|)) &&
    Newest(last, p, |last|) == Reverse(Flatten(pages)) + (ids + Flatten(WalkBack(t, back, p, n, ids[|ids| - 1])))
  }

  lemma StretchPartitions(t: Table, p: Message -> bool, before: seq<Id>, ids: seq<Id>, after: seq<Id>,
                          n: nat, fwd: seq<seq<Op>>, back: seq<seq<Op>>)
    requires ids != [] && Newest(t, p, |t|) == before + ids + after && KeyOnly(p) && n >= 1
    ensures WalksPartition(t, p, ids, n, fwd, back)
  {
    var first, least := ids[0], ids[|ids| - 1];
    var (pages, last) := WalkForward(t, fwd, p, n, first);
    StretchCuts(t, p, before, ids, after);
    StretchAndOlder(t, p, before, ids, after);
    WalkForwardIsExact(t, fwd, p, n, first);
    LaterListing(t, last, p, first);
    WalkBackIsExact(t, back, p, n, least);
    NewestDescends(last, p, |last|);
  }

  /** A window and the walks from its ends partition the channel. */
  lemma AroundPartitions(t: Table, p: Message -> bool, limit: nat, cursor: Id, ids: seq<Id>,
                         n: nat, fwd: seq<seq<Op>>, back: seq<seq<Op>>)
    requires ids == AroundPage(t, p, limit, cursor).ids && ids != [] && KeyOnly(p) && n >= 1
    ensures WalksPartition(t, p, ids, n, fwd, back)
  {
    var before, after := AroundRest(t, p, limit, cursor);
    StretchPartitions(t, p, before, ids, after, n, fwd, back);
  }

  // ---------- the methods ----------

  /** The first n matches from hi downwards, read row by row. */
  method FetchNewest(t: Table, p: Message -> bool, hi: nat, n: nat) returns (found: seq<Id>)
    requires hi <= |t|
    ensures found == First(Newest(t, p, hi), n)
  {
    found := [];
    var i := hi;
    while i > 0 && |found| < n
      invariant 0 <= i <= hi && |found| <= n
      invariant found + Newest(t, p, i) == Newest(t, p, hi)
    {
      if p(t[i - 1]) {
        found := found + [i];
      }
      i := i - 1;
    }
    assert found == Newest(t, p, hi)[..|found|];
  }

  method FetchOldest(t: Table, p: Message -> bool, lo: nat, n: nat) returns (found: seq<Id>)
    requires lo <= |t|
    ensures found == First(Oldest(t, p, lo), n)
  {
    found := [];
    var i := lo;
    while i < |t| && |found| < n
      invariant lo <= i <= |t| && |found| <= n
      invariant found + Oldest(t, p, i) == Oldest(t, p, lo)
    {
      if p(t[i]) {
        found := found + [i + 1];
      }
      i := i + 1;
    }
    assert found == Oldest(t, p, lo)[..|found|];
  }

  method TrimFetched(fetched: seq<Id>, limit: nat, ghost all: seq<Id>) returns (page: Page)
    requires limit >= 1 && fetched == First(all, limit + 1)
    ensures page == Trim(all, limit)
  {
    var messages := fetched;
    var hasMore := |messages| > limit;
    if hasMore {
      messages := messages[..limit];
    }
    var nextCursor := 0;
    if hasMore && |messages| > 0 {
      nextCursor := messages[|messages| - 1];
    }
    page := Page(messages, hasMore, false, nextCursor);
  }

  method List(store: Store, ch: Channel, limit: int, cursor: Id, direction: Direction, f: Filter) returns (page: Page)
    ensures var p, n := VisibleIn(ch, f), PageSize(limit);
            page == if direction == Around && cursor != 0 then AroundPage(store.rows, p, n, cursor)
                    else if direction == After && cursor != 0 then PageAfter(store.rows, p, n, cursor)
                    else PageBefore(store.rows, p, n, cursor)
    ensures var size := if 1 <= limit <= 100 then limit else 50;
            direction != Around || cursor == 0 ==> |page.ids| <= size && (page.hasMore ==> |page.ids| == size)
  {
    var t := store.rows;
    var n := if limit <= 0 || limit > 100 then 50 else limit;
    if direction == Around && cursor != 0 {
      page := ListAround(store, ch, n, cursor, f);
    } else if direction == After && cursor != 0 {
      var fetched := FetchOldest(t, VisibleIn(ch, f), Floor(t, cursor), n + 1);
      page := TrimFetched(fetched, n, Oldest(t, VisibleIn(ch, f), Floor(t, cursor)));
    } else {
      var fetched := FetchNewest(t, VisibleIn(ch, f), Ceiling(t, cursor), n + 1);
      page := TrimFetched(fetched, n, Newest(t, VisibleIn(ch, f), Ceiling(t, cursor)));
    }
  }

  method Reversed(s: seq<Id>) returns (r: seq<Id>)
    ensures r == Reverse(s)
  {
    r := [];
    var i := |s|;
    while i > 0
      invariant 0 <= i <= |s|
      invariant r == Reverse(s[i..])
    {
      i := i - 1;
      assert s[i..] == [s[i]] + s[i + 1..];
      r := r + [s[i]];
    }
  }

  /** One row too many tells whether there are more, and is dropped. */
  method TrimHalf(fetched: seq<Id>, half: nat, ghost all: seq<Id>) returns (kept: seq<Id>, more: bool)
    requires fetched == First(all, half + 1)
    ensures kept == First(all, half) && (more <==> |all| > half)
  {
    kept := fetched;
    more := |fetched| > half;
    if more {
      kept := fetched[..half];
    }
  }

  method ListAround(store: Store, ch: Channel, limit: nat, cursor: Id, f: Filter) returns (page: Page)
    ensures page == AroundPage(store.rows, VisibleIn(ch, f), limit, cursor)
  {
    var t, p := store.rows, VisibleIn(ch, f);
    var half := limit / 2;
    if half < 1 {
      half := 25;
    }
    var before := FetchNewest(t, p, Floor(t, cursor), half + 1);
    var hasMore, hasNewer;
    before, hasMore := TrimHalf(before, half, Newest(t, p, Floor(t, cursor)));
    var after := FetchOldest(t, p, Floor(t, cursor), half + 1);
    after, hasNewer := TrimHalf(after, half, Oldest(t, p, Floor(t, cursor)));
    var messages := Reversed(after);
    messages := messages + before;
    page := Page(messages, hasMore, hasNewer, if hasMore && |messages| > 0 then messages[|messages| - 1] else 0);
  }

  method ListThread(store: Store, parent: Id, limit: int, cursor: Id, f: Filter) returns (page: Page)
    ensures page == PageAfter(store.rows, ReplyIn(parent, f), PageSize(limit), cursor)
    ensures var size := if 1 <= limit <= 100 then limit else 50;
            |page.ids| <= size && (page.hasMore ==> |page.ids| == size)
  {
    var n := if limit <= 0 || limit > 100 then 50 else limit;
    var t := store.rows;
    var fetched := FetchOldest(t, ReplyIn(parent, f), Floor(t, cursor), n + 1);
    page := TrimFetched(fetched, n, Oldest(t, ReplyIn(parent, f), Floor(t, cursor)));
  }
}
