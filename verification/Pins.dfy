/** ListPinnedMessages (server/internal/message/repository.go): sorted by
    pinned_at, cut by id. */
module Pins {
  import opened Common
  import opened Messages
  import opened Paging

  predicate PinListed(m: Message, ch: Channel, f: Filter) {
    m.channel == ch && m.pinnedAt.Some? && m.deletedAt.None? && NotIn(m.author, f.hidden) && NotIn(m.author, f.blocked)
  }

  /** What the query selects; with a cursor it also asks for a lower id. */
  function PinWanted(ch: Channel, f: Filter, cursor: Id): Message -> bool {
    (m: Message) => PinListed(m, ch, f) && (cursor == 0 || m.id < cursor)
  }

  predicate PinnedRows(t: Table, s: seq<Id>) {
    forall i :: 0 <= i < |s| ==> Exists(t, s[i]) && t[s[i] - 1].pinnedAt.Some?
  }

  predicate Distinct(s: seq<Id>) {
    forall i, j :: 0 <= i < j < |s| ==> s[i] != s[j]
  }

  function PinTime(t: Table, s: seq<Id>, i: nat): Time
    requires PinnedRows(t, s) && i < |s|
  {
    t[s[i] - 1].pinnedAt.value
  }

  predicate NewestPinFirst(t: Table, s: seq<Id>)
    requires PinnedRows(t, s)
  {
    forall i, j :: 0 <= i < j < |s| ==> PinTime(t, s, i) >= PinTime(t, s, j)
  }

  ghost predicate Selects(t: Table, p: Message -> bool, s: seq<Id>) {
    forall id: Id :: id in s <==> Exists(t, id) && p(t[id - 1])
  }

  /** A possible answer of the query before it is cut: every row that satisfies p, once,
      newest pin first. Rows pinned in the same second may come in any order. */
  ghost predicate PinOrder(t: Table, p: Message -> bool, s: seq<Id>) {
    PinnedRows(t, s) && Distinct(s) && NewestPinFirst(t, s) && Selects(t, p, s)
  }

  /** A duplicate-free list of matching ids is no longer than the count. */
  lemma {:induction false} DistinctAtMostCount(t: Table, p: Message -> bool, s: seq<Id>)
    requires Distinct(s) && forall i :: 0 <= i < |s| ==> Exists(t, s[i]) && p(t[s[i] - 1])
    ensures |s| <= Count(t, p)
    decreases |t|
  {
    if s == [] {
    } else {
      assert Exists(t, s[0]);
      var n := |t|;
      if n in s {
        var k :| 0 <= k < |s| && s[k] == n;
        var rest := s[..k] + s[k + 1..];
        assert forall i :: 0 <= i < |rest| ==> rest[i] == s[if i < k then i else i + 1];
        DistinctAtMostCount(t[..n - 1], p, rest);
      } else {
        DistinctAtMostCount(t[..n - 1], p, s);
      }
    }
  }

  /** Because of the pin cap, asking for no particular page (limit outside 1..49)
      always returns every live pinned message that passes the filter and never
      announces a further page. */
  lemma OnePageHoldsAllPins(t: Table, ch: Channel, f: Filter, all: seq<Id>, limit: int)
    requires Inv(t) && PinOrder(t, PinWanted(ch, f, 0), all)
    requires !(1 <= limit <= 49)
    ensures Trim(all, PageSize(limit)) == Page(all, false, false, 0)
    ensures forall id: Id :: id in all <==>
              Exists(t, id) && t[id - 1].channel == ch && t[id - 1].pinnedAt.Some? && t[id - 1].deletedAt.None? &&
              (f.hidden == {} || (t[id - 1].author.Some? && t[id - 1].author.value !in f.hidden)) &&
              (f.blocked == {} || (t[id - 1].author.Some? && t[id - 1].author.value !in f.blocked))
  {
    forall i | 0 <= i < |all|
      ensures Exists(t, all[i]) && PinnedIn(ch)(t[all[i] - 1])
    {
      assert all[i] in all;
      assert PinWanted(ch, f, 0)(t[all[i] - 1]);
    }
    forall id: Id | Exists(t, id)
      ensures PinWanted(ch, f, 0)(t[id - 1]) == PinListed(t[id - 1], ch, f)
    {}
    DistinctAtMostCount(t, PinnedIn(ch), all);
  }

  // ---------- inserting into a listing ----------

  lemma PinSkip(t: Table, p: Message -> bool, s: seq<Id>, m: Message)
    requires PinOrder(t, p, s) && !p(m)
    ensures PinOrder(t + [m], p, s)
  {
    var t' := t + [m];
    assert forall i :: 0 <= i < |s| ==> Exists(t, s[i]) && t'[s[i] - 1] == t[s[i] - 1];
    assert PinnedRows(t', s);
    forall i | 0 <= i < |s|
      ensures PinTime(t', s, i) == PinTime(t, s, i)
    {}
  }

  function Inserted(s: seq<Id>, k: nat, id: Id): (r: seq<Id>)
    requires k <= |s|
    ensures |r| == |s| + 1
    ensures forall j :: 0 <= j < |r| ==> r[j] == if j < k then s[j] else if j == k then id else s[j - 1]
  {
    s[..k] + [id] + s[k..]
  }

  lemma PinInsertMembers(t: Table, p: Message -> bool, s: seq<Id>, m: Message, k: nat, id: Id)
    requires Selects(t, p, s) && p(m) && k <= |s|
    ensures id in Inserted(s, k, |t| + 1) <==> Exists(t + [m], id) && p((t + [m])[id - 1])
  {
    assert s == s[..k] + s[k..];
    assert id in s <==> Exists(t, id) && p(t[id - 1]);
  }

  lemma PinInsertRows(t: Table, s: seq<Id>, m: Message, k: nat)
    requires PinnedRows(t, s) && m.pinnedAt.Some? && k <= |s|
    ensures PinnedRows(t + [m], Inserted(s, k, |t| + 1))
  {
    var t', r := t + [m], Inserted(s, k, |t| + 1);
    forall j | 0 <= j < |r|
      ensures Exists(t', r[j]) && t'[r[j] - 1].pinnedAt.Some?
    {
      if j != k {
        assert Exists(t, s[if j < k then j else j - 1]);
      }
    }
  }

  /** The pin times after the insertion. */
  lemma PinInsertTime(t: Table, s: seq<Id>, m: Message, k: nat, j: nat)
    requires PinnedRows(t, s) && m.pinnedAt.Some? && k <= |s| && j <= |s|
    requires PinnedRows(t + [m], Inserted(s, k, |t| + 1))
    ensures PinTime(t + [m], Inserted(s, k, |t| + 1), j)
         == if j < k then PinTime(t, s, j) else if j == k then m.pinnedAt.value else PinTime(t, s, j - 1)
  {
    if j != k {
      assert Exists(t, s[if j < k then j else j - 1]);
    }
  }

  lemma PinInsertOrder(t: Table, s: seq<Id>, m: Message, k: nat)
    requires PinnedRows(t, s) && NewestPinFirst(t, s) && m.pinnedAt.Some? && k <= |s|
    requires forall j :: 0 <= j < k ==> PinTime(t, s, j) >= m.pinnedAt.value
    requires k < |s| ==> PinTime(t, s, k) < m.pinnedAt.value
    ensures PinnedRows(t + [m], Inserted(s, k, |t| + 1)) && NewestPinFirst(t + [m], Inserted(s, k, |t| + 1))
  {
    PinInsertRows(t, s, m, k);
    var t', r := t + [m], Inserted(s, k, |t| + 1);
    forall i, j | 0 <= i < j < |r|
      ensures PinTime(t', r, i) >= PinTime(t', r, j)
    {
      PinInsertTime(t, s, m, k, i);
      PinInsertTime(t, s, m, k, j);
      assert k < j - 1 ==> PinTime(t, s, k) >= PinTime(t, s, j - 1);
    }
  }

  lemma PinInsert(t: Table, p: Message -> bool, s: seq<Id>, m: Message, k: nat)
    requires PinOrder(t, p, s) && p(m) && m.pinnedAt.Some? && k <= |s|
    requires forall j :: 0 <= j < k ==> PinTime(t, s, j) >= m.pinnedAt.value
    requires k < |s| ==> PinTime(t, s, k) < m.pinnedAt.value
    ensures PinOrder(t + [m], p, Inserted(s, k, |t| + 1))
  {
    PinInsertOrder(t, s, m, k);
    var r := Inserted(s, k, |t| + 1);
    forall i, j | 0 <= i < j < |r|
      ensures r[i] != r[j]
    {
      assert i < |s| ==> Exists(t, s[i]);
      assert Exists(t, s[j - 1]);
    }
    forall id: Id
      ensures id in r <==> Exists(t + [m], id) && p((t + [m])[id - 1])
    {
      PinInsertMembers(t, p, s, m, k, id);
    }
  }

  // ---------- a listing of every selection ----------

  /** Where a newly found row goes, from position i on: behind the pins that are at
      least as new. */
  function Place(t: Table, s: seq<Id>, at: Time, i: nat): (k: nat)
    requires PinnedRows(t, s) && i <= |s| && forall j :: 0 <= j < i ==> PinTime(t, s, j) >= at
    ensures k <= |s|
    ensures forall j :: 0 <= j < k ==> PinTime(t, s, j) >= at
    ensures k < |s| ==> PinTime(t, s, k) < at
    decreases |s| - i
  {
    if i < |s| && PinTime(t, s, i) >= at then Place(t, s, at, i + 1) else i
  }

  /** The listing in which pins of the same second come in id order. */
  function Sorted(t: Table, p: Message -> bool): (s: seq<Id>)
    requires forall m: Message :: p(m) ==> m.pinnedAt.Some?
    ensures PinnedRows(t, s)
  {
    if t == [] then []
    else
      var front, m := t[..|t| - 1], t[|t| - 1];
      var s := Sorted(front, p);
      assert front + [m] == t;
      if p(m) then
        PinInsertRows(front, s, m, Place(front, s, m.pinnedAt.value, 0));
        Inserted(s, Place(front, s, m.pinnedAt.value, 0), |t|)
      else
        assert forall i :: 0 <= i < |s| ==> Exists(front, s[i]) && t[s[i] - 1] == front[s[i] - 1];
        s
  }

  predicate TiesById(t: Table, s: seq<Id>)
    requires PinnedRows(t, s)
  {
    forall i, j :: 0 <= i < j < |s| ==> PinTime(t, s, i) > PinTime(t, s, j) || s[i] < s[j]
  }

  lemma InsertKeepsTies(t: Table, s: seq<Id>, m: Message, k: nat)
    requires PinnedRows(t, s) && NewestPinFirst(t, s) && TiesById(t, s) && m.pinnedAt.Some? && k <= |s|
    requires forall j :: 0 <= j < k ==> PinTime(t, s, j) >= m.pinnedAt.value
    requires k < |s| ==> PinTime(t, s, k) < m.pinnedAt.value
    ensures PinnedRows(t + [m], Inserted(s, k, |t| + 1)) && TiesById(t + [m], Inserted(s, k, |t| + 1))
  {
    PinInsertRows(t, s, m, k);
    var t', r := t + [m], Inserted(s, k, |t| + 1);
    forall i, j | 0 <= i < j < |r|
      ensures PinTime(t', r, i) > PinTime(t', r, j) || r[i] < r[j]
    {
      PinInsertTime(t, s, m, k, i);
      PinInsertTime(t, s, m, k, j);
      assert i < |s| ==> Exists(t, s[i]);
      assert k < j - 1 ==> PinTime(t, s, k) >= PinTime(t, s, j - 1);
    }
  }

  lemma {:induction false} SortedIsAnOrder(t: Table, p: Message -> bool)
    requires forall m: Message :: p(m) ==> m.pinnedAt.Some?
    ensures PinOrder(t, p, Sorted(t, p)) && TiesById(t, Sorted(t, p))
  {
    if t == [] {
    } else {
      var front, m := t[..|t| - 1], t[|t| - 1];
      var s := Sorted(front, p);
      SortedIsAnOrder(front, p);
      assert front + [m] == t;
      if p(m) {
        var k := Place(front, s, m.pinnedAt.value, 0);
        PinInsert(front, p, s, m, k);
        InsertKeepsTies(front, s, m, k);
      } else {
        PinSkip(front, p, s, m);
      }
    }
  }

  // ---------- whole walks ----------

  /** The database's answers to the query, one for every cursor. */
  ghost predicate Answers(t: Table, ch: Channel, f: Filter, lists: seq<seq<Id>>) {
    |lists| == |t| + 1 && forall c :: 0 <= c < |lists| ==> PinOrder(t, PinWanted(ch, f, c), lists[c])
  }

  /** Ids are positive, exist, and are below the cursor if there is one. */
  predicate Falling(lists: seq<seq<Id>>) {
    forall c, i :: 0 <= c < |lists| && 0 <= i < |lists[c]| ==> 0 < lists[c][i] < if c == 0 then |lists| else c
  }

  /** A client follows the cursor until there is no further page. */
  function PinWalk(lists: seq<seq<Id>>, limit: nat, cursor: Id): seq<Page>
    requires limit >= 1 && cursor < |lists| && Falling(lists)
    decreases if cursor == 0 then |lists| else cursor
  {
    var page := Trim(lists[cursor], limit);
    if !page.hasMore then [page] else [page] + PinWalk(lists, limit, page.nextCursor)
  }

  ghost function WalkedIds(t: Table, ch: Channel, f: Filter, lists: seq<seq<Id>>, limit: int): seq<Id>
    requires Dense(t) && Answers(t, ch, f, lists)
  {
    Flatten(PinWalk(lists, PageSize(limit), 0))
  }

  predicate LivePin(t: Table, ch: Channel, f: Filter, id: Id) {
    Exists(t, id) && PinListed(t[id - 1], ch, f)
  }

  /** Every live pinned message that passes the filter, exactly once. */
  ghost predicate Complete(t: Table, ch: Channel, f: Filter, ids: seq<Id>) {
    Distinct(ids) && forall id: Id :: id in ids <==> LivePin(t, ch, f, id)
  }

  /** The pins were made in the order in which the messages were written, no two in
      the same second. */
  ghost predicate PinnedInOrder(t: Table, ch: Channel, f: Filter) {
    forall x, y :: LivePin(t, ch, f, x) && LivePin(t, ch, f, y) && x < y ==>
      t[x - 1].pinnedAt.value < t[y - 1].pinnedAt.value
  }

  lemma ListMembers(t: Table, ch: Channel, f: Filter, lists: seq<seq<Id>>, c: Id, id: Id)
    requires Dense(t) && Answers(t, ch, f, lists) && c < |lists|
    ensures id in lists[c] <==> LivePin(t, ch, f, id) && (c == 0 || id < c)
  {
    assert PinOrder(t, PinWanted(ch, f, c), lists[c]);
    if Exists(t, id) {
      assert t[id - 1].id == id;
    }
  }

  // ---------- pins in order: the walk is complete ----------

  lemma ListDescends(t: Table, ch: Channel, f: Filter, lists: seq<seq<Id>>, c: Id)
    requires Dense(t) && Answers(t, ch, f, lists) && c < |lists| && PinnedInOrder(t, ch, f)
    ensures Descending(lists[c])
  {
    var s := lists[c];
    assert PinOrder(t, PinWanted(ch, f, c), s);
    forall i, j | 0 <= i < j < |s|
      ensures s[i] > s[j]
    {
      ListMembers(t, ch, f, lists, c, s[i]);
      ListMembers(t, ch, f, lists, c, s[j]);
      assert PinTime(t, s, i) >= PinTime(t, s, j);
    }
  }

  lemma {:induction false} DescendingIsUnique(a: seq<Id>, b: seq<Id>)
    requires Descending(a) && Descending(b) && forall id: Id :: id in a <==> id in b
    ensures a == b
  {
    if a == [] {
      assert forall i :: 0 <= i < |b| ==> b[i] in a;
    } else {
      assert a[0] in b && b != [];
      assert b[0] in a;
      assert a[0] == b[0];
      forall id: Id
        ensures id in a[1..] <==> id in b[1..]
      {
        RestMembers(a, id);
        RestMembers(b, id);
      }
      DescendingIsUnique(a[1..], b[1..]);
    }
  }

  lemma RestMembers(s: seq<Id>, id: Id)
    requires Descending(s) && s != []
    ensures id in s[1..] <==> id in s && id != s[0]
  {
    assert s == [s[0]] + s[1..];
  }

  /** The ids after the n-th of a descending list are those below it. */
  lemma DescendingTail(s: seq<Id>, n: nat, id: Id)
    requires Descending(s) && 1 <= n < |s|
    ensures id in s[n..] <==> id in s && id < s[n - 1]
  {
    if id in s {
      var i :| 0 <= i < |s| && s[i] == id;
    }
    assert s == s[..n] + s[n..];
  }

  lemma NextListIsTheRest(t: Table, ch: Channel, f: Filter, lists: seq<seq<Id>>, limit: nat, cursor: Id)
    requires Dense(t) && Answers(t, ch, f, lists) && PinnedInOrder(t, ch, f) && limit >= 1
    requires cursor < |lists| && |lists[cursor]| > limit
    ensures Falling(lists) && lists[lists[cursor][limit - 1]] == lists[cursor][limit..]
  {
    var all := lists[cursor];
    var c := all[limit - 1];
    ListDescends(t, ch, f, lists, cursor);
    ListDescends(t, ch, f, lists, c);
    forall id: Id
      ensures id in lists[c] <==> id in all[limit..]
    {
      DescendingTail(all, limit, id);
      ListMembers(t, ch, f, lists, cursor, id);
      ListMembers(t, ch, f, lists, c, id);
      assert cursor == 0 || c < cursor;
    }
    DescendingIsUnique(lists[c], all[limit..]);
  }

  lemma {:induction false} OrderedWalkIsTheList(t: Table, ch: Channel, f: Filter, lists: seq<seq<Id>>, limit: nat,
                                                cursor: Id)
    requires Dense(t) && Answers(t, ch, f, lists) && PinnedInOrder(t, ch, f) && limit >= 1 && cursor < |lists|
    ensures Falling(lists) && Flatten(PinWalk(lists, limit, cursor)) == lists[cursor]
    decreases if cursor == 0 then |lists| else cursor
  {
    var page := Trim(lists[cursor], limit);
    var pages := PinWalk(lists, limit, cursor);
    if !page.hasMore {
      assert pages == [page] && Flatten(pages[1..]) == [];
    } else {
      NextListIsTheRest(t, ch, f, lists, limit, cursor);
      OrderedWalkIsTheList(t, ch, f, lists, limit, page.nextCursor);
      assert pages[1..] == PinWalk(lists, limit, page.nextCursor);
      assert lists[cursor] == lists[cursor][..limit] + lists[cursor][limit..];
    }
  }

  // ---------- pins out of order: some walk loses a message ----------

  /** A walk from a cursor returns only ids below it. */
  lemma {:induction false} WalkStaysBelow(lists: seq<seq<Id>>, limit: nat, cursor: Id, id: Id)
    requires limit >= 1 && 0 < cursor < |lists| && Falling(lists) && id in Flatten(PinWalk(lists, limit, cursor))
    ensures id < cursor
    decreases cursor
  {
    var page := Trim(lists[cursor], limit);
    var pages := PinWalk(lists, limit, cursor);
    forall i | 0 <= i < |page.ids|
      ensures page.ids[i] < cursor
    {
      assert page.ids[i] == lists[cursor][i];
    }
    assert pages[1..] == if page.hasMore then PinWalk(lists, limit, page.nextCursor) else [];
    if page.hasMore && id in Flatten(pages[1..]) {
      WalkStaysBelow(lists, limit, page.nextCursor, id);
    }
  }

  /** If a list goes up after its k-th id, the walk with pages of k never returns the
      next one. */
  lemma AscentIsLost(lists: seq<seq<Id>>, k: nat)
    requires lists != [] && Falling(lists) && Distinct(lists[0])
    requires 1 <= k < |lists[0]| && lists[0][k - 1] < lists[0][k]
    ensures lists[0][k] !in Flatten(PinWalk(lists, k, 0))
  {
    var all, pages := lists[0], PinWalk(lists, k, 0);
    var page := Trim(all, k);
    assert pages[1..] == PinWalk(lists, k, page.nextCursor);
    forall i | 0 <= i < k
      ensures page.ids[i] != all[k]
    {
      assert page.ids[i] == all[i];
    }
    if all[k] in Flatten(pages[1..]) {
      WalkStaysBelow(lists, k, page.nextCursor, all[k]);
    }
  }

  lemma CompleteWalkHasNoAscent(t: Table, ch: Channel, f: Filter, lists: seq<seq<Id>>, k: nat)
    requires Dense(t) && Answers(t, ch, f, lists) && 1 <= k < |lists[0]| && k <= 50
    requires Complete(t, ch, f, WalkedIds(t, ch, f, lists, k))
    ensures lists[0][k - 1] >= lists[0][k]
  {
    var x := lists[0][k];
    ListMembers(t, ch, f, lists, 0, x);
    assert PinOrder(t, PinWanted(ch, f, 0), lists[0]);
    if lists[0][k - 1] < x {
      AscentIsLost(lists, k);
    }
  }

  /** If every page size gives every pin exactly once, the listing is in strictly
      descending id order. */
  lemma CompleteWalksDescend(t: Table, ch: Channel, f: Filter, lists: seq<seq<Id>>)
    requires Inv(t) && Answers(t, ch, f, lists)
    requires forall limit :: 1 <= limit <= 50 ==> Complete(t, ch, f, WalkedIds(t, ch, f, lists, limit))
    ensures Descending(lists[0])
  {
    var all := lists[0];
    FewPins(t, ch, f, lists);
    forall k | 1 <= k < |all|
      ensures all[k - 1] > all[k]
    {
      CompleteWalkHasNoAscent(t, ch, f, lists, k);
      assert all[k - 1] != all[k];
    }
    StepsDescend(all);
  }

  lemma {:induction false} StepsDescend(s: seq<Id>)
    requires forall k :: 1 <= k < |s| ==> s[k - 1] > s[k]
    ensures Descending(s)
  {
    if s == [] {
    } else {
      var front := s[..|s| - 1];
      StepsDescend(front);
      forall i, j | 0 <= i < j < |s|
        ensures s[i] > s[j]
      {
        if j == |s| - 1 && i < j - 1 {
          assert front[i] > front[j - 1];
        } else if j < |s| - 1 {
          assert front[i] > front[j];
        }
      }
    }
  }

  lemma FewPins(t: Table, ch: Channel, f: Filter, lists: seq<seq<Id>>)
    requires Inv(t) && Answers(t, ch, f, lists)
    ensures |lists[0]| <= MAX_PINS && Distinct(lists[0])
  {
    var all := lists[0];
    assert PinOrder(t, PinWanted(ch, f, 0), all);
    forall i | 0 <= i < |all|
      ensures Exists(t, all[i]) && PinnedIn(ch)(t[all[i] - 1])
    {
      assert all[i] in all;
      assert PinWanted(ch, f, 0)(t[all[i] - 1]);
    }
    DistinctAtMostCount(t, PinnedIn(ch), all);
  }

  function SortedLists(t: Table, ch: Channel, f: Filter): (lists: seq<seq<Id>>)
    ensures |lists| == |t| + 1 && forall c :: 0 <= c <= |t| ==> lists[c] == Sorted(t, PinWanted(ch, f, c))
  {
    seq(|t| + 1, c requires 0 <= c <= |t| => Sorted(t, PinWanted(ch, f, c)))
  }

  lemma SortedListsAnswer(t: Table, ch: Channel, f: Filter)
    ensures Answers(t, ch, f, SortedLists(t, ch, f))
  {
    forall c | 0 <= c <= |t|
      ensures PinOrder(t, PinWanted(ch, f, c), SortedLists(t, ch, f)[c])
    {
      SortedIsAnOrder(t, PinWanted(ch, f, c));
    }
  }

  /** When the listing that breaks ties by id goes down, the pins are in order. */
  lemma DescendingMeansInOrder(t: Table, ch: Channel, f: Filter)
    requires Dense(t) && Descending(Sorted(t, PinWanted(ch, f, 0)))
    ensures PinnedInOrder(t, ch, f)
  {
    var s := Sorted(t, PinWanted(ch, f, 0));
    SortedIsAnOrder(t, PinWanted(ch, f, 0));
    forall x, y | LivePin(t, ch, f, x) && LivePin(t, ch, f, y) && x < y
      ensures t[x - 1].pinnedAt.value < t[y - 1].pinnedAt.value
    {
      assert PinWanted(ch, f, 0)(t[x - 1]) && PinWanted(ch, f, 0)(t[y - 1]);
      assert x in s && y in s;
      var i :| 0 <= i < |s| && s[i] == x;
      var j :| 0 <= j < |s| && s[j] == y;
      assert j < i;
      assert PinTime(t, s, j) > PinTime(t, s, i);
    }
  }

  /** However the database breaks ties and whatever the page size, following the cursor
      returns every live pinned message exactly once - if and only if the pins were
      made in the order in which the messages were written. */
  lemma PinWalksAreCompleteIff(t: Table, ch: Channel, f: Filter)
    requires Inv(t)
    ensures (forall lists: seq<seq<Id>>, limit: int ::
               Answers(t, ch, f, lists) ==> Complete(t, ch, f, WalkedIds(t, ch, f, lists, limit)))
       <==> PinnedInOrder(t, ch, f)
  {
    if PinnedInOrder(t, ch, f) {
      forall lists: seq<seq<Id>>, limit: int | Answers(t, ch, f, lists)
        ensures Complete(t, ch, f, WalkedIds(t, ch, f, lists, limit))
      {
        OrderedWalkIsTheList(t, ch, f, lists, PageSize(limit), 0);
        FewPins(t, ch, f, lists);
        forall id: Id
          ensures id in lists[0] <==> LivePin(t, ch, f, id)
        {
          ListMembers(t, ch, f, lists, 0, id);
        }
      }
    } else if forall lists: seq<seq<Id>>, limit: int ::
                Answers(t, ch, f, lists) ==> Complete(t, ch, f, WalkedIds(t, ch, f, lists, limit)) {
      SortedListsAnswer(t, ch, f);
      CompleteWalksDescend(t, ch, f, SortedLists(t, ch, f));
      DescendingMeansInOrder(t, ch, f);
    }
  }

  // ---------- a walk that loses messages ----------

  function PinnedSample(id: Id, at: Time): Message {
    Message(id, 1, Some("u"), "", [], None, false, 0, None, None, None, Some(at), Some("u"), 0, 0)
  }

  /** Three pinned messages, the oldest of which was pinned last. */
  function PinnedLate(): (t: Table)
    ensures |t| == 3 && Dense(t)
  {
    [PinnedSample(1, 30), PinnedSample(2, 10), PinnedSample(3, 20)]
  }

  function ThreeMessages(): seq<Op> {
    var d := Draft(1, Some("u"), "", [], None, false);
    [Create(d, 0), Create(d, 0), Create(d, 0)]
  }

  function ThreePins(): seq<Op> {
    [Pin(2, "u", 10), Pin(3, "u", 20), Pin(1, "u", 30)]
  }

  lemma RunThree(t: Table, a: Op, b: Op, c: Op)
    ensures Run(t, [a, b, c]) == Apply(Apply(Apply(t, a), b), c)
  {
    assert [a, b, c][1..] == [b, c] && [b, c][1..] == [c] && [c][1..] == [];
    assert Run(Apply(Apply(t, a), b), [c]) == Apply(Apply(Apply(t, a), b), c);
  }

  lemma {:induction false} CountAtMost(t: Table, p: Message -> bool)
    ensures Count(t, p) <= |t|
  {
    if t == [] {
    } else {
      CountAtMost(t[..|t| - 1], p);
    }
  }

  function Unpinned(id: Id): Message {
    PinnedSample(id, 0).(pinnedAt := None, pinnedBy := None)
  }

  lemma ThreeCreates()
    ensures Run([], ThreeMessages()) == [Unpinned(1), Unpinned(2), Unpinned(3)]
  {
    var d := Draft(1, Some("u"), "", [], None, false);
    RunThree([], Create(d, 0), Create(d, 0), Create(d, 0));
  }

  lemma PinOne(t: Table, id: Id, at: Time)
    requires |t| <= 3 && Exists(t, id) && t[id - 1] == Unpinned(id)
    ensures Apply(t, Pin(id, "u", at)) == t[id - 1 := PinnedSample(id, at)]
  {
    CountAtMost(t, PinnedIn(1));
  }

  lemma ThenThreePins()
    ensures Run([Unpinned(1), Unpinned(2), Unpinned(3)], ThreePins()) == PinnedLate()
  {
    var t := [Unpinned(1), Unpinned(2), Unpinned(3)];
    PinOne(t, 2, 10);
    PinOne(t[1 := PinnedSample(2, 10)], 3, 20);
    PinOne(t[1 := PinnedSample(2, 10)][2 := PinnedSample(3, 20)], 1, 30);
    RunThree(t, Pin(2, "u", 10), Pin(3, "u", 20), Pin(1, "u", 30));
  }

  /** Six requests produce that table. */
  lemma PinnedLateIsReachable()
    ensures Run([], ThreeMessages() + ThreePins()) == PinnedLate() && Inv(PinnedLate())
  {
    ThreeCreates();
    ThenThreePins();
    RunConcat([], ThreeMessages(), ThreePins());
    ReachableInv(ThreeMessages() + ThreePins());
  }

  lemma PinnedLateSelects()
    ensures Selects(PinnedLate(), PinWanted(1, Filter({}, {}), 0), [1, 3, 2])
  {}

  lemma PinnedLateDescends()
    ensures PinnedRows(PinnedLate(), [1, 3, 2]) && NewestPinFirst(PinnedLate(), [1, 3, 2])
  {
    var t := PinnedLate();
    assert PinTime(t, [1, 3, 2], 0) == 30 && PinTime(t, [1, 3, 2], 1) == 20 && PinTime(t, [1, 3, 2], 2) == 10;
  }

  lemma PinnedLateOrder()
    ensures PinOrder(PinnedLate(), PinWanted(1, Filter({}, {}), 0), [1, 3, 2])
  {
    PinnedLateDescends();
    PinnedLateSelects();
  }

  /** With pages of one the first page of that reachable table returns the oldest
      message alone, and the second is empty although two more pins are left. */
  lemma PinWalkCanLoseMessages()
    ensures PinnedLate() == Run([], ThreeMessages() + ThreePins())
    ensures PinOrder(PinnedLate(), PinWanted(1, Filter({}, {}), 0), [1, 3, 2])
    ensures Trim([1, 3, 2], 1) == Page([1], true, false, 1)
    ensures PinOrder(PinnedLate(), PinWanted(1, Filter({}, {}), 1), [])
  {
    PinnedLateIsReachable();
    PinnedLateOrder();
    forall id: Id
      ensures !(Exists(PinnedLate(), id) && PinWanted(1, Filter({}, {}), 1)(PinnedLate()[id - 1]))
    {}
  }

  // ---------- the method ----------

  method ListPinnedMessages(store: Store, ch: Channel, cursor: Id, limit: int, f: Filter) returns (page: Page)
    ensures exists all: seq<Id> ::
              PinOrder(store.rows, PinWanted(ch, f, cursor), all) && page == Trim(all, PageSize(limit))
    ensures var size := if 1 <= limit <= 100 then limit else 50;
            |page.ids| <= size && (page.hasMore ==> |page.ids| == size)
  {
    var t := store.rows;
    var n := if limit <= 0 || limit > 100 then 50 else limit;
    var sorted := SortPins(t, PinWanted(ch, f, cursor));
    page := TrimFetched(First(sorted, n + 1), n, sorted);
  }

  /** Newest pin first: every selected row goes behind the pins at least as new. */
  method SortPins(t: Table, p: Message -> bool) returns (sorted: seq<Id>)
    requires forall m: Message :: p(m) ==> m.pinnedAt.Some?
    ensures PinOrder(t, p, sorted)
  {
    sorted := [];
    for i := 0 to |t|
      invariant PinOrder(t[..i], p, sorted)
    {
      assert t[..i + 1] == t[..i] + [t[i]];
      sorted := PutPin(t[..i], p, sorted, t[i]);
    }
    assert t[..|t|] == t;
  }

  /** The next row goes to its place if it is selected. */
  method PutPin(t: Table, p: Message -> bool, s: seq<Id>, m: Message) returns (r: seq<Id>)
    requires PinOrder(t, p, s) && (p(m) ==> m.pinnedAt.Some?)
    ensures PinOrder(t + [m], p, r)
  {
    if p(m) {
      var k := PinPlace(t, s, m);
      PinInsert(t, p, s, m, k);
      r := s[..k] + [|t| + 1] + s[k..];
    } else {
      PinSkip(t, p, s, m);
      r := s;
    }
  }

  method PinPlace(t: Table, s: seq<Id>, m: Message) returns (k: nat)
    requires PinnedRows(t, s) && m.pinnedAt.Some?
    ensures k <= |s|
    ensures forall j :: 0 <= j < k ==> PinTime(t, s, j) >= m.pinnedAt.value
    ensures k < |s| ==> PinTime(t, s, k) < m.pinnedAt.value
  {
    k := 0;
    while k < |s| && PinTime(t, s, k) >= m.pinnedAt.value
      invariant k <= |s|
      invariant forall j :: 0 <= j < k ==> PinTime(t, s, j) >= m.pinnedAt.value
    {
      k := k + 1;
    }
  }
}
