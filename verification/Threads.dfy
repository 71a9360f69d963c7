/** ListUserThreads: the list of a user's threads, paged by the two-column key
    (last_reply_at, id) (server/internal/message/repository.go). */
module Threads {
  import opened Common
  import opened Messages
  import opened Paging

  /** The joined tables: the parents the user is subscribed to, and the channels
      of the workspace. */
  datatype Source = Source(subscribed: set<Id>, channels: set<Channel>, filter: Filter)

  function Listed(src: Source): Message -> bool {
    (m: Message) =>
      m.id in src.subscribed && m.channel in src.channels && m.deletedAt.None? && m.replyCount > 0 &&
      NotIn(m.author, src.filter.hidden) && NotIn(m.author, src.filter.blocked)
  }

  /** Latest reply first, ties by highest id; rows without a reply time come last. */
  predicate Above(t: Table, a: Id, b: Id)
    requires Exists(t, a) && Exists(t, b)
  {
    var x, y := t[a - 1].lastReplyAt, t[b - 1].lastReplyAt;
    (x.Some? && (y.None? || x.value > y.value)) || (x == y && a > b)
  }

  /** The cursor condition of the second and later pages. A comparison with NULL
      is not true, so a row without last_reply_at can never pass it. */
  function PastCursor(t: Table, c: Id): Message -> bool {
    (m: Message) =>
      Exists(t, c) && t[c - 1].lastReplyAt.Some? && m.lastReplyAt.Some? &&
      (m.lastReplyAt.value < t[c - 1].lastReplyAt.value ||
       (m.lastReplyAt.value == t[c - 1].lastReplyAt.value && m.id < c))
  }

  function Wanted(t: Table, src: Source, cursor: Id): Message -> bool {
    (m: Message) => Listed(src)(m) && (cursor == 0 || PastCursor(t, cursor)(m))
  }

  predicate AllExist(t: Table, s: seq<Id>) {
    forall i :: 0 <= i < |s| ==> Exists(t, s[i])
  }

  predicate Ordered(t: Table, s: seq<Id>)
    requires AllExist(t, s)
  {
    forall i, j :: 0 <= i < j < |s| ==> Above(t, s[i], s[j])
  }

  function Insert(t: Table, s: seq<Id>, id: Id): (r: seq<Id>)
    requires AllExist(t, s) && Exists(t, id)
    ensures AllExist(t, r)
  {
    if s == [] then [id]
    else if Above(t, id, s[0]) then [id] + s
    else [s[0]] + Insert(t, s[1..], id)
  }

  /** The rows among the first n that satisfy p, in the query's order. */
  function Ranked(t: Table, p: Message -> bool, n: nat): (r: seq<Id>)
    requires n <= |t|
    ensures AllExist(t, r)
  {
    if n == 0 then []
    else if p(t[n - 1]) then Insert(t, Ranked(t, p, n - 1), n)
    else Ranked(t, p, n - 1)
  }

  lemma {:induction false} InsertMembers(t: Table, s: seq<Id>, id: Id, x: Id)
    requires AllExist(t, s) && Exists(t, id)
    ensures x in Insert(t, s, id) <==> x == id || x in s
  {
    if s == [] {
    } else {
      InsertMembers(t, s[1..], id, x);
      assert s == [s[0]] + s[1..];
    }
  }

  lemma {:induction false} InsertOrdered(t: Table, s: seq<Id>, id: Id)
    requires AllExist(t, s) && Exists(t, id) && Ordered(t, s) && id !in s
    ensures Ordered(t, Insert(t, s, id))
  {
    if s == [] {
    } else {
      if Above(t, id, s[0]) {
        forall j | 0 <= j < |s|
          ensures Above(t, id, s[j])
        {}
      } else {
        InsertOrdered(t, s[1..], id);
        HeadIsAbove(t, s, id);
        var rest := Insert(t, s[1..], id);
      }
    }
  }

  lemma HeadIsAbove(t: Table, s: seq<Id>, id: Id)
    requires AllExist(t, s) && Exists(t, id) && Ordered(t, s) && s != []
    requires id != s[0] && !Above(t, id, s[0])
    ensures forall j :: 0 <= j < |Insert(t, s[1..], id)| ==> Above(t, s[0], Insert(t, s[1..], id)[j])
  {
    var rest := Insert(t, s[1..], id);
    forall j | 0 <= j < |rest|
      ensures Above(t, s[0], rest[j])
    {
      InsertMembers(t, s[1..], id, rest[j]);
      if rest[j] != id {
        var i :| 0 <= i < |s[1..]| && s[1..][i] == rest[j];
        assert Above(t, s[0], s[i + 1]);
      }
    }
  }

  lemma {:induction false} RankedMeaning(t: Table, p: Message -> bool, n: nat)
    requires n <= |t|
    ensures Ordered(t, Ranked(t, p, n))
    ensures forall id: Id :: id in Ranked(t, p, n) <==> 1 <= id <= n && p(t[id - 1])
  {
    if n == 0 {
    } else {
      RankedMeaning(t, p, n - 1);
      if p(t[n - 1]) {
        InsertOrdered(t, Ranked(t, p, n - 1), n);
        forall id: Id
          ensures id in Ranked(t, p, n) <==> id == n || id in Ranked(t, p, n - 1)
        {
          InsertMembers(t, Ranked(t, p, n - 1), n, id);
        }
      }
    }
  }

  lemma TailMembers(t: Table, s: seq<Id>, x: Id)
    requires AllExist(t, s) && Ordered(t, s) && s != []
    ensures x in s[1..] <==> x in s && x != s[0]
  {
    assert s == [s[0]] + s[1..];
    if x in s[1..] {
      var j :| 0 < j < |s| && s[j] == x;
      assert Above(t, s[0], s[j]);
    }
  }

  /** The order is strict and total, so a listing is determined by its elements. */
  lemma {:induction false} OrderIsUnique(t: Table, s: seq<Id>, r: seq<Id>)
    requires AllExist(t, s) && AllExist(t, r) && Ordered(t, s) && Ordered(t, r)
    requires forall x: Id :: x in s <==> x in r
    ensures s == r
  {
    if s == [] {
      assert forall i :: 0 <= i < |r| ==> r[i] in s;
    } else {
      assert s[0] in r && r != [];
      assert r[0] in s;
      assert s[0] == r[0];
      forall x: Id
        ensures x in s[1..] <==> x in r[1..]
      {
        TailMembers(t, s, x);
        TailMembers(t, r, x);
      }
      OrderIsUnique(t, s[1..], r[1..]);
    }
  }

  // ---------- pages ----------

  function ThreadPageSize(limit: int): (n: nat)
    ensures 1 <= n <= 100
  {
    if limit <= 0 || limit > 100 then 20 else limit
  }

  function ThreadPage(t: Table, src: Source, limit: nat, cursor: Id): Page
    requires limit >= 1
  {
    Trim(Ranked(t, Wanted(t, src, cursor), |t|), limit)
  }

  /** The store invariant behind the keyset: a row with replies has a reply time. */
  lemma RepliedRowsHaveATime(t: Table, i: nat)
    requires Inv(t) && i < |t|
    ensures t[i].replyCount > 0 ==> t[i].lastReplyAt.Some?
    ensures t[i].replyCount > 0 <==> exists j :: 0 <= j < |t| && LiveReplyTo(i + 1)(t[j])
  {
    assert CounterMatches(t, t[i]);
    if Count(t, LiveReplyTo(i + 1)) > 0 {
      if forall j :: 0 <= j < |t| ==> !LiveReplyTo(i + 1)(t[j]) {
        CountNone(t, LiveReplyTo(i + 1));
      }
      var j :| 0 <= j < |t| && LiveReplyTo(i + 1)(t[j]);
      NewestReplyTimeMeaning(t, i + 1);
      assert t[j].parent == Some(i + 1);
    }
    if j :| 0 <= j < |t| && LiveReplyTo(i + 1)(t[j]) {
      CountPositive(t, LiveReplyTo(i + 1), j);
    }
  }

  lemma PastIsBelow(t: Table, src: Source, cursor: Id, c: Id, x: Id)
    requires Exists(t, c) && Exists(t, x) && t[c - 1].id == c && t[x - 1].id == x
    requires t[c - 1].replyCount > 0 ==> t[c - 1].lastReplyAt.Some?
    requires t[x - 1].replyCount > 0 ==> t[x - 1].lastReplyAt.Some?
    requires Wanted(t, src, cursor)(t[c - 1])
    ensures Wanted(t, src, c)(t[x - 1]) <==> Wanted(t, src, cursor)(t[x - 1]) && Above(t, c, x)
  {
    var m := t[x - 1];
    if Wanted(t, src, cursor)(m) && Above(t, c, x) {
      assert Listed(src)(m) && PastCursor(t, c)(m);
    }
    if Wanted(t, src, c)(m) {
      assert Listed(src)(m) && PastCursor(t, c)(m);
      assert cursor != 0 ==> PastCursor(t, cursor)(m);
    }
  }

  lemma AfterMembers(t: Table, s: seq<Id>, k: nat, x: Id)
    requires AllExist(t, s) && Ordered(t, s) && k < |s|
    ensures x in s[k + 1..] <==> x in s && Above(t, s[k], x)
  {
    if x in s[k + 1..] {
      var j :| k < j < |s| && s[j] == x;
      assert Above(t, s[k], s[j]);
    }
    if x in s && Above(t, s[k], x) {
      var j :| 0 <= j < |s| && s[j] == x;
      assert x == s[k + 1..][j - k - 1];
    }
  }

  /** In a table that satisfies the invariant, the rows after the k-th of a page
      are exactly what the next page's query selects. */
  lemma NextPageIsTheRest(t: Table, src: Source, cursor: Id, k: nat)
    requires Inv(t) && k < |Ranked(t, Wanted(t, src, cursor), |t|)|
    ensures var all := Ranked(t, Wanted(t, src, cursor), |t|);
            all[k] > 0 && Ranked(t, Wanted(t, src, all[k]), |t|) == all[k + 1..]
  {
    var all := Ranked(t, Wanted(t, src, cursor), |t|);
    var c := all[k];
    var next := Ranked(t, Wanted(t, src, c), |t|);
    RankedMeaning(t, Wanted(t, src, cursor), |t|);
    RankedMeaning(t, Wanted(t, src, c), |t|);
    assert c in all;
    forall x: Id
      ensures x in all[k + 1..] <==> x in next
    {
      AfterMembers(t, all, k, x);
      if Exists(t, x) {
        RepliedRowsHaveATime(t, x - 1);
        RepliedRowsHaveATime(t, c - 1);
        PastIsBelow(t, src, cursor, c, x);
      }
    }
    OrderIsUnique(t, all[k + 1..], next);
  }

  /** Following NextCursor with no writes in between. */
  ghost function Walk(t: Table, src: Source, limit: nat, cursor: Id): seq<Page>
    requires limit >= 1 && Inv(t)
    decreases |Ranked(t, Wanted(t, src, cursor), |t|)|
  {
    var page := ThreadPage(t, src, limit, cursor);
    if !page.hasMore then [page]
    else
      NextPageIsTheRest(t, src, cursor, limit - 1);
      [page] + Walk(t, src, limit, page.nextCursor)
  }

  lemma {:induction false} WalkCovers(t: Table, src: Source, limit: nat, cursor: Id)
    requires limit >= 1 && Inv(t)
    ensures Flatten(Walk(t, src, limit, cursor)) == Ranked(t, Wanted(t, src, cursor), |t|)
    ensures |Walk(t, src, limit, cursor)| == Pages(|Ranked(t, Wanted(t, src, cursor), |t|)|, limit)
    decreases |Ranked(t, Wanted(t, src, cursor), |t|)|
  {
    var all := Ranked(t, Wanted(t, src, cursor), |t|);
    var page := ThreadPage(t, src, limit, cursor);
    var pages := Walk(t, src, limit, cursor);
    if !page.hasMore {
      assert Flatten(pages[1..]) == [];
    } else {
      NextPageIsTheRest(t, src, cursor, limit - 1);
      WalkCovers(t, src, limit, page.nextCursor);
      assert pages[1..] == Walk(t, src, limit, page.nextCursor);
      assert all == all[..limit] + all[limit..];
    }
  }

  /** What the listing is for, without mentioning the reply counter. */
  predicate Followed(t: Table, src: Source, id: Id) {
    Live(t, id) && id in src.subscribed && t[id - 1].channel in src.channels &&
    (src.filter.hidden == {} || (t[id - 1].author.Some? && t[id - 1].author.value !in src.filter.hidden)) &&
    (src.filter.blocked == {} || (t[id - 1].author.Some? && t[id - 1].author.value !in src.filter.blocked)) &&
    exists j :: 0 <= j < |t| && t[j].parent == Some(id) && t[j].deletedAt.None?
  }

  lemma WantedIsFollowed(t: Table, src: Source, id: Id)
    requires Inv(t) && Exists(t, id)
    ensures Wanted(t, src, 0)(t[id - 1]) <==> Followed(t, src, id)
    ensures Wanted(t, src, 0)(t[id - 1]) ==> t[id - 1].lastReplyAt.Some?
  {
    RepliedRowsHaveATime(t, id - 1);
    assert t[id - 1].replyCount > 0 <==> exists j :: 0 <= j < |t| && LiveReplyTo(id)(t[j]);
    assert Listed(src)(t[id - 1]) <==> Followed(t, src, id);
  }

  /** Latest reply time first, the higher id where times tie. */
  predicate LatestFirst(t: Table, s: seq<Id>)
    requires AllExist(t, s)
  {
    forall i, j :: 0 <= i < j < |s| ==>
      var x, y := t[s[i] - 1].lastReplyAt, t[s[j] - 1].lastReplyAt;
      x.Some? && y.Some? && (x.value > y.value || (x.value == y.value && s[i] > s[j]))
  }

  lemma TimesDescend(t: Table, src: Source, s: seq<Id>)
    requires Inv(t) && AllExist(t, s) && Ordered(t, s)
    requires forall i :: 0 <= i < |s| ==> t[s[i] - 1].lastReplyAt.Some?
    ensures LatestFirst(t, s)
  {
    forall i, j | 0 <= i < j < |s|
      ensures Above(t, s[i], s[j])
    {}
  }

  /** A whole walk visits every live thread of the workspace that the user follows
      and that has a live reply, exactly once, latest reply first and - when reply
      times tie - highest id first. */
  lemma WalkVisitsEveryThreadOnce(t: Table, src: Source, limit: nat)
    requires limit >= 1 && Inv(t)
    ensures var visited := Flatten(Walk(t, src, limit, 0));
            AllExist(t, visited) && Ordered(t, visited) && LatestFirst(t, visited) &&
            forall id: Id :: id in visited <==> Followed(t, src, id)
  {
    var visited := Flatten(Walk(t, src, limit, 0));
    WalkCovers(t, src, limit, 0);
    RankedMeaning(t, Wanted(t, src, 0), |t|);
    forall id: Id | Exists(t, id)
      ensures Wanted(t, src, 0)(t[id - 1]) <==> Followed(t, src, id)
      ensures Wanted(t, src, 0)(t[id - 1]) ==> t[id - 1].lastReplyAt.Some?
    {
      WantedIsFollowed(t, src, id);
    }
    forall i | 0 <= i < |visited|
      ensures t[visited[i] - 1].lastReplyAt.Some?
    {
      assert visited[i] in visited;
    }
    TimesDescend(t, src, visited);
  }

  // ---------- the method ----------

  lemma {:induction false} InsertAt(t: Table, s: seq<Id>, id: Id, k: nat)
    requires AllExist(t, s) && Exists(t, id) && k <= |s|
    requires forall j :: 0 <= j < k ==> !Above(t, id, s[j])
    requires k < |s| ==> Above(t, id, s[k])
    ensures Insert(t, s, id) == s[..k] + [id] + s[k..]
  {
    if k == 0 {
    } else {
      InsertAt(t, s[1..], id, k - 1);
      assert s[..k] == [s[0]] + s[1..][..k - 1];
      assert s[1..][k - 1..] == s[k..];
    }
  }

  method ListUserThreads(store: Store, src: Source, limit: int, cursor: Id) returns (page: Page)
    ensures page == ThreadPage(store.rows, src, ThreadPageSize(limit), cursor)
    ensures var size := if 1 <= limit <= 100 then limit else 20;
            |page.ids| <= size && (page.hasMore ==> |page.ids| == size)
  {
    var t := store.rows;
    var n := if limit <= 0 || limit > 100 then 20 else limit;
    var p := Wanted(t, src, cursor);
    var sorted: seq<Id> := [];
    for i := 0 to |t|
      invariant AllExist(t, sorted)
      invariant sorted == Ranked(t, p, i)
    {
      if p(t[i]) {
        var k := 0;
        while k < |sorted| && !Above(t, i + 1, sorted[k])
          invariant 0 <= k <= |sorted|
          invariant forall j :: 0 <= j < k ==> !Above(t, i + 1, sorted[j])
        {
          k := k + 1;
        }
        InsertAt(t, sorted, i + 1, k);
        sorted := sorted[..k] + [i + 1] + sorted[k..];
      }
    }
    page := TrimFetched(First(sorted, n + 1), n, sorted);
  }
}
