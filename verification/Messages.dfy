/** The `messages` table and the transactions that write it
    (server/internal/message/repository.go).

    Ids are ULIDs minted in increasing order: the i-th inserted row has id i + 1,
    and id 0 stands for the empty string, which sorts before every ULID. Rows are
    never physically removed, so the table is a sequence in id order. */
module Messages {
  import opened Common

  type Id = nat
  type Channel = nat

  const MAX_PINS := 50

  datatype Message = Message(
    id: Id,
    channel: Channel,
    author: Option<User>,
    content: string,
    mentions: seq<string>,
    parent: Option<Id>,
    alsoSend: bool,
    replyCount: int,
    lastReplyAt: Option<Time>,
    editedAt: Option<Time>,
    deletedAt: Option<Time>,
    pinnedAt: Option<Time>,
    pinnedBy: Option<User>,
    createdAt: Time,
    updatedAt: Time)

  /** What a caller of Create supplies. */
  datatype Draft = Draft(
    channel: Channel,
    author: Option<User>,
    content: string,
    mentions: seq<string>,
    parent: Option<Id>,
    alsoSend: bool)

  type Table = seq<Message>

  datatype Outcome = Ok | NotFound | ForeignKeyViolation | PinLimitReached

  datatype Op =
    | Create(draft: Draft, now: Time)
    | Update(id: Id, content: string, now: Time)
    | Delete(id: Id, now: Time)
    | Pin(id: Id, user: User, now: Time)
    | Unpin(id: Id)

  predicate Exists(t: Table, id: Id) {
    1 <= id <= |t|
  }

  predicate Live(t: Table, id: Id) {
    Exists(t, id) && t[id - 1].deletedAt.None?
  }

  // ---------- row predicates used by the queries ----------

  function LiveReplyTo(p: Id): Message -> bool {
    (m: Message) => m.parent == Some(p) && m.deletedAt.None?
  }

  function PinnedIn(ch: Channel): Message -> bool {
    (m: Message) => m.channel == ch && m.pinnedAt.Some?
  }

  // ---------- the transactions as functions on the table ----------

  function NewRow(id: Id, d: Draft, now: Time): Message {
    Message(id, d.channel, d.author, d.content, d.mentions, d.parent, d.alsoSend,
            0, None, None, None, None, None, now, now)
  }

  function Replied(m: Message, now: Time): Message {
    m.(replyCount := m.replyCount + 1, lastReplyAt := Some(now), updatedAt := now)
  }

  function ReplyDropped(m: Message, now: Time): Message {
    m.(replyCount := if m.replyCount - 1 > 0 then m.replyCount - 1 else 0, updatedAt := now)
  }

  function Tombstone(m: Message, now: Time): Message {
    m.(deletedAt := Some(now), content := "[deleted]", updatedAt := now)
  }

  function Allowed(t: Table, op: Op): Outcome {
    match op
    case Create(d, _) => if d.parent.Some? && !Exists(t, d.parent.value) then ForeignKeyViolation else Ok
    case Update(id, _, _) => if Live(t, id) then Ok else NotFound
    case Delete(id, _) => if Live(t, id) then Ok else NotFound
    case Pin(id, _, _) =>
      if !Exists(t, id) then NotFound
      else if Count(t, PinnedIn(t[id - 1].channel)) >= MAX_PINS then PinLimitReached
      else Ok
    case Unpin(_) => Ok
  }

  function Apply(t: Table, op: Op): Table {
    if Allowed(t, op) != Ok then t
    else
      match op
      case Create(d, now) =>
        var inserted := t + [NewRow(|t| + 1, d, now)];
        if d.parent.None? then inserted
        else inserted[d.parent.value - 1 := Replied(t[d.parent.value - 1], now)]
      case Update(id, content, now) =>
        t[id - 1 := t[id - 1].(content := content, editedAt := Some(now), updatedAt := now)]
      case Delete(id, now) =>
        var gone := t[id - 1 := Tombstone(t[id - 1], now)];
        var p := t[id - 1].parent;
        if p.None? || !Exists(t, p.value) then gone
        else gone[p.value - 1 := ReplyDropped(gone[p.value - 1], now)]
      case Pin(id, user, now) =>
        t[id - 1 := t[id - 1].(pinnedAt := Some(now), pinnedBy := Some(user))]
      case Unpin(id) =>
        if Exists(t, id) then t[id - 1 := t[id - 1].(pinnedAt := None, pinnedBy := None)] else t
  }

  function Run(t: Table, ops: seq<Op>): Table
    decreases |ops|
  {
    if ops == [] then t else Run(Apply(t, ops[0]), ops[1..])
  }

  // ---------- what every write leaves alone ----------

  /** The columns no transaction ever rewrites. */
  predicate SameKey(m: Message, n: Message) {
    m.id == n.id && m.channel == n.channel && m.author == n.author && m.parent == n.parent &&
    m.alsoSend == n.alsoSend && m.createdAt == n.createdAt && m.mentions == n.mentions
  }

  /** t' is t with rows appended and, in the old rows, only mutable columns
      changed; a deleted row stays deleted. */
  predicate Extends(t: Table, t': Table) {
    |t| <= |t'| &&
    forall i :: 0 <= i < |t| ==> SameKey(t[i], t'[i]) && (t[i].deletedAt.Some? ==> t'[i].deletedAt.Some?)
  }

  lemma ApplyExtends(t: Table, op: Op)
    ensures Extends(t, Apply(t, op))
  {}

  lemma {:induction false} RunExtends(t: Table, ops: seq<Op>)
    ensures Extends(t, Run(t, ops))
    decreases |ops|
  {
    if ops == [] {
    } else {
      var t1 := Apply(t, ops[0]);
      var t2 := Run(t1, ops[1..]);
      ApplyExtends(t, ops[0]);
      RunExtends(t1, ops[1..]);
      forall i | 0 <= i < |t|
        ensures SameKey(t[i], t2[i]) && (t[i].deletedAt.Some? ==> t2[i].deletedAt.Some?)
      {
        assert SameKey(t[i], t1[i]) && SameKey(t1[i], t2[i]);
      }
    }
  }

  lemma {:induction false} RunConcat(t: Table, a: seq<Op>, b: seq<Op>)
    ensures Run(t, a + b) == Run(Run(t, a), b)
    decreases |a|
  {
    if a == [] {
      assert a + b == b;
    } else {
      assert (a + b)[0] == a[0] && (a + b)[1..] == a[1..] + b;
      RunConcat(Apply(t, a[0]), a[1..], b);
    }
  }

  // ---------- the store invariant ----------

  /** Creation time of the newest reply ever made to p, deleted or not. */
  function NewestReplyTime(t: Table, p: Id): Option<Time> {
    if t == [] then None
    else if t[|t| - 1].parent == Some(p) then Some(t[|t| - 1].createdAt)
    else NewestReplyTime(t[..|t| - 1], p)
  }

  predicate Dense(t: Table) {
    forall i :: 0 <= i < |t| ==> t[i].id == i + 1
  }

  /** The foreign key: a reply's parent is an earlier row. */
  predicate ParentsExist(t: Table) {
    forall i :: 0 <= i < |t| && t[i].parent.Some? ==> 1 <= t[i].parent.value <= i
  }

  predicate CounterMatches(t: Table, m: Message) {
    m.replyCount == Count(t, LiveReplyTo(m.id)) && m.lastReplyAt == NewestReplyTime(t, m.id)
  }

  ghost predicate PinsCapped(t: Table) {
    forall ch: Channel :: Count(t, PinnedIn(ch)) <= MAX_PINS
  }

  ghost predicate Inv(t: Table) {
    Dense(t) && ParentsExist(t) && PinsCapped(t) &&
    forall i :: 0 <= i < |t| ==> CounterMatches(t, t[i])
  }

  lemma {:induction false} NoReplyTime(t: Table, p: Id)
    ensures NewestReplyTime(t, p).None? <==> forall i :: 0 <= i < |t| ==> t[i].parent != Some(p)
  {
    if t == [] {
    } else {
      NoReplyTime(t[..|t| - 1], p);
    }
  }

  /** Row i is the last reply to p. */
  predicate LastReply(t: Table, p: Id, i: int) {
    0 <= i < |t| && t[i].parent == Some(p) && forall j :: i < j < |t| ==> t[j].parent != Some(p)
  }

  lemma {:induction false} LastReplyTime(t: Table, p: Id)
    requires NewestReplyTime(t, p).Some?
    ensures exists i :: LastReply(t, p, i) && NewestReplyTime(t, p) == Some(t[i].createdAt)
  {
    var n := |t| - 1;
    if t[n].parent == Some(p) {
      assert LastReply(t, p, n);
    } else {
      LastReplyTime(t[..n], p);
      var i :| LastReply(t[..n], p, i) && NewestReplyTime(t[..n], p) == Some(t[..n][i].createdAt);
      assert LastReply(t, p, i);
    }
  }

  /** Reads back NewestReplyTime: it is the creation time of the last row whose
      parent is p, and absent exactly when there is none. */
  lemma NewestReplyTimeMeaning(t: Table, p: Id)
    ensures NewestReplyTime(t, p).None? <==> forall i :: 0 <= i < |t| ==> t[i].parent != Some(p)
    ensures NewestReplyTime(t, p).Some? ==>
              exists i :: LastReply(t, p, i) && NewestReplyTime(t, p) == Some(t[i].createdAt)
  {
    NoReplyTime(t, p);
    if NewestReplyTime(t, p).Some? {
      LastReplyTime(t, p);
    }
  }

  lemma {:induction false} NewestReplyTimeAgree(t: Table, t': Table, p: Id)
    requires |t| == |t'|
    requires forall i :: 0 <= i < |t| ==> SameKey(t[i], t'[i])
    ensures NewestReplyTime(t, p) == NewestReplyTime(t', p)
  {
    if t == [] {
    } else {
      NewestReplyTimeAgree(t[..|t| - 1], t'[..|t| - 1], p);
    }
  }

  lemma NoRepliesYet(t: Table, p: Id)
    requires ParentsExist(t) && p > |t|
    ensures Count(t, LiveReplyTo(p)) == 0 && NewestReplyTime(t, p) == None
  {
    CountNone(t, LiveReplyTo(p));
    NewestReplyTimeMeaning(t, p);
  }

  /** One write to one row that touches neither keys, counters, deletion nor pins. */
  lemma QuietWrite(t: Table, i: nat, m: Message)
    requires Inv(t) && i < |t| && SameKey(t[i], m)
    requires m.replyCount == t[i].replyCount && m.lastReplyAt == t[i].lastReplyAt
    requires m.deletedAt == t[i].deletedAt
    requires forall ch: Channel :: Count(t[i := m], PinnedIn(ch)) <= MAX_PINS
    ensures Inv(t[i := m])
  {
    var t' := t[i := m];
    forall j | 0 <= j < |t'|
      ensures CounterMatches(t', t'[j])
    {
      assert CounterMatches(t, t[j]);
      CountUpdate(t, i, m, LiveReplyTo(j + 1));
      NewestReplyTimeAgree(t, t', j + 1);
    }
  }

  lemma PinsUnchanged(t: Table, i: nat, m: Message)
    requires i < |t| && m.channel == t[i].channel && m.pinnedAt == t[i].pinnedAt
    ensures forall ch: Channel :: Count(t[i := m], PinnedIn(ch)) == Count(t, PinnedIn(ch))
  {
    forall ch: Channel
      ensures Count(t[i := m], PinnedIn(ch)) == Count(t, PinnedIn(ch))
    {
      CountUpdate(t, i, m, PinnedIn(ch));
    }
  }

  lemma CreateLiveReplies(t: Table, d: Draft, now: Time, p: Id)
    requires Allowed(t, Create(d, now)) == Ok
    ensures Count(Apply(t, Create(d, now)), LiveReplyTo(p)) == Count(t, LiveReplyTo(p)) + Bit(d.parent == Some(p))
  {
    var m := NewRow(|t| + 1, d, now);
    CountAppend(t, m, LiveReplyTo(p));
    CountAgree(t + [m], Apply(t, Create(d, now)), LiveReplyTo(p), LiveReplyTo(p));
  }

  lemma CreateReplyTime(t: Table, d: Draft, now: Time, p: Id)
    requires Allowed(t, Create(d, now)) == Ok
    ensures NewestReplyTime(Apply(t, Create(d, now)), p)
         == if d.parent == Some(p) then Some(now) else NewestReplyTime(t, p)
  {
    var t1 := t + [NewRow(|t| + 1, d, now)];
    assert t1[..|t|] == t;
    NewestReplyTimeAgree(t1, Apply(t, Create(d, now)), p);
  }

  lemma CreateCounter(t: Table, d: Draft, now: Time, j: nat)
    requires Allowed(t, Create(d, now)) == Ok && Dense(t) && ParentsExist(t) && j <= |t|
    requires j < |t| ==> CounterMatches(t, t[j])
    ensures CounterMatches(Apply(t, Create(d, now)), Apply(t, Create(d, now))[j])
  {
    NoRepliesYet(t, |t| + 1);
    CreateLiveReplies(t, d, now, j + 1);
    CreateReplyTime(t, d, now, j + 1);
  }

  lemma CreatePins(t: Table, d: Draft, now: Time)
    requires Allowed(t, Create(d, now)) == Ok && PinsCapped(t)
    ensures PinsCapped(Apply(t, Create(d, now)))
  {
    var m := NewRow(|t| + 1, d, now);
    var t2 := Apply(t, Create(d, now));
    forall ch: Channel
      ensures Count(t2, PinnedIn(ch)) <= MAX_PINS
    {
      CountAppend(t, m, PinnedIn(ch));
      CountAgree(t + [m], t2, PinnedIn(ch), PinnedIn(ch));
    }
  }

  lemma CreateKeepsInv(t: Table, d: Draft, now: Time)
    requires Inv(t)
    ensures Inv(Apply(t, Create(d, now)))
  {
    if Allowed(t, Create(d, now)) == Ok {
      var t2 := Apply(t, Create(d, now));
      CreatePins(t, d, now);
      forall j | 0 <= j < |t2|
        ensures CounterMatches(t2, t2[j])
      {
        CreateCounter(t, d, now, j);
      }
    }
  }

  /** In a reachable table the parent of a live reply counts it, so the clamp
      MAX(reply_count - 1, 0) in Delete never changes the result. */
  lemma ClampNeverFires(t: Table, id: Id)
    requires Inv(t) && Live(t, id) && t[id - 1].parent.Some?
    ensures Exists(t, t[id - 1].parent.value)
    ensures t[t[id - 1].parent.value - 1].replyCount >= 1
  {
    var p := t[id - 1].parent.value;
    assert CounterMatches(t, t[p - 1]);
    CountPositive(t, LiveReplyTo(p), id - 1);
  }

  /** Exactly the parent's counter moves, by exactly one. */
  lemma DeleteReplyCounts(t: Table, id: Id, now: Time, j: nat)
    requires Inv(t) && Live(t, id) && j < |t|
    ensures Apply(t, Delete(id, now))[j].replyCount + Bit(t[id - 1].parent == Some(j + 1)) == t[j].replyCount
  {
    if t[id - 1].parent.Some? {
      ClampNeverFires(t, id);
    }
  }

  lemma DeleteLiveReplies(t: Table, id: Id, now: Time, p: Id)
    requires Live(t, id)
    ensures Count(Apply(t, Delete(id, now)), LiveReplyTo(p)) + Bit(t[id - 1].parent == Some(p))
         == Count(t, LiveReplyTo(p))
  {
    var gone := Tombstone(t[id - 1], now);
    CountUpdate(t, id - 1, gone, LiveReplyTo(p));
    CountAgree(t[id - 1 := gone], Apply(t, Delete(id, now)), LiveReplyTo(p), LiveReplyTo(p));
  }

  lemma DeleteCounter(t: Table, id: Id, now: Time, j: nat)
    requires Inv(t) && Live(t, id) && j < |t|
    ensures CounterMatches(Apply(t, Delete(id, now)), Apply(t, Delete(id, now))[j])
  {
    assert CounterMatches(t, t[j]);
    ApplyExtends(t, Delete(id, now));
    DeleteReplyCounts(t, id, now, j);
    DeleteLiveReplies(t, id, now, j + 1);
    NewestReplyTimeAgree(t, Apply(t, Delete(id, now)), j + 1);
  }

  lemma DeletePins(t: Table, id: Id, now: Time)
    requires Live(t, id) && PinsCapped(t)
    ensures PinsCapped(Apply(t, Delete(id, now)))
  {
    var t1 := t[id - 1 := Tombstone(t[id - 1], now)];
    var t2 := Apply(t, Delete(id, now));
    PinsUnchanged(t, id - 1, Tombstone(t[id - 1], now));
    forall ch: Channel
      ensures Count(t2, PinnedIn(ch)) <= MAX_PINS
    {
      CountAgree(t1, t2, PinnedIn(ch), PinnedIn(ch));
    }
  }

  lemma DeleteKeepsInv(t: Table, id: Id, now: Time)
    requires Inv(t)
    ensures Inv(Apply(t, Delete(id, now)))
  {
    if Live(t, id) {
      var t2 := Apply(t, Delete(id, now));
      DeletePins(t, id, now);
      forall j | 0 <= j < |t2|
        ensures CounterMatches(t2, t2[j])
      {
        DeleteCounter(t, id, now, j);
      }
    }
  }

  lemma PinKeepsInv(t: Table, id: Id, user: User, now: Time)
    requires Inv(t)
    ensures Inv(Apply(t, Pin(id, user, now)))
  {
    if Allowed(t, Pin(id, user, now)) == Ok {
      var m := t[id - 1].(pinnedAt := Some(now), pinnedBy := Some(user));
      forall ch: Channel
        ensures Count(t[id - 1 := m], PinnedIn(ch)) <= MAX_PINS
      {
        CountUpdate(t, id - 1, m, PinnedIn(ch));
      }
      QuietWrite(t, id - 1, m);
    }
  }

  lemma FewerPins(t: Table, i: nat, m: Message)
    requires i < |t| && m.pinnedAt.None?
    ensures forall ch: Channel :: Count(t[i := m], PinnedIn(ch)) <= Count(t, PinnedIn(ch))
  {
    forall ch: Channel
      ensures Count(t[i := m], PinnedIn(ch)) <= Count(t, PinnedIn(ch))
    {
      CountUpdate(t, i, m, PinnedIn(ch));
    }
  }

  lemma UnpinKeepsInv(t: Table, id: Id)
    requires Inv(t)
    ensures Inv(Apply(t, Unpin(id)))
  {
    if Exists(t, id) {
      var m := t[id - 1].(pinnedAt := None, pinnedBy := None);
      FewerPins(t, id - 1, m);
      QuietWrite(t, id - 1, m);
    }
  }

  lemma ApplyKeepsInv(t: Table, op: Op)
    requires Inv(t)
    ensures Inv(Apply(t, op))
  {
    match op
    case Create(d, now) => CreateKeepsInv(t, d, now);
    case Update(id, content, now) =>
      if Live(t, id) {
        var m := t[id - 1].(content := content, editedAt := Some(now), updatedAt := now);
        PinsUnchanged(t, id - 1, m);
        QuietWrite(t, id - 1, m);
      }
    case Delete(id, now) => DeleteKeepsInv(t, id, now);
    case Pin(id, user, now) => PinKeepsInv(t, id, user, now);
    case Unpin(id) => UnpinKeepsInv(t, id);
  }

  /** In every reachable table the reply counters are exact and no channel has
      more than 50 pinned rows. */
  lemma {:induction false} RunKeepsInv(t: Table, ops: seq<Op>)
    requires Inv(t)
    ensures Inv(Run(t, ops))
    decreases |ops|
  {
    if ops == [] {
    } else {
      ApplyKeepsInv(t, ops[0]);
      RunKeepsInv(Apply(t, ops[0]), ops[1..]);
    }
  }

  /** Every table that the writes reach from the empty one satisfies the invariant. */
  lemma ReachableInv(ops: seq<Op>)
    ensures Inv(Run([], ops))
  {
    RunKeepsInv([], ops);
  }

  /** A second Delete of the same row is refused and changes nothing, whatever
      happened in between. */
  lemma DeleteIsFinal(t: Table, id: Id, now: Time, ops: seq<Op>, later: Time)
    requires Live(t, id)
    ensures var t' := Run(Apply(t, Delete(id, now)), ops);
            Allowed(t', Delete(id, later)) == NotFound && Apply(t', Delete(id, later)) == t'
  {
    RunExtends(Apply(t, Delete(id, now)), ops);
  }

  // ---------- the repository object ----------

  lemma DeleteInTwoWrites(t: Table, id: Id, now: Time)
    requires Inv(t) && Live(t, id)
    ensures var p, gone := t[id - 1].parent, t[id - 1 := Tombstone(t[id - 1], now)];
            (p.Some? ==> Exists(t, p.value)) &&
            Apply(t, Op.Delete(id, now))
            == if p.None? then gone else gone[p.value - 1 := ReplyDropped(gone[p.value - 1], now)]
  {}

  class Store {
    var rows: Table

    ghost predicate Valid()
      reads this
    {
      Inv(rows)
    }

    constructor ()
      ensures Valid() && rows == []
    {
      rows := [];
    }

    method Create(d: Draft, now: Time) returns (r: Outcome, id: Id)
      requires Valid()
      modifies this
      ensures Valid() && rows == Apply(old(rows), Op.Create(d, now))
      ensures r == Allowed(old(rows), Op.Create(d, now))
      ensures r == Ok ==> id == |rows| && id == |old(rows)| + 1 && !Exists(old(rows), id)
    {
      ghost var before := rows;
      CreateKeepsInv(rows, d, now);
      if d.parent.Some? && !(1 <= d.parent.value <= |rows|) {
        return ForeignKeyViolation, 0;
      }
      id := |rows| + 1;
      rows := rows + [NewRow(id, d, now)];
      if d.parent.Some? {
        var p := d.parent.value - 1;
        rows := rows[p := rows[p].(replyCount := rows[p].replyCount + 1, lastReplyAt := Some(now), updatedAt := now)];
      }
      assert rows == Apply(before, Op.Create(d, now));
      r := Ok;
    }

    /** The two statements of Delete's transaction. */
    method MarkDeleted(id: Id, now: Time)
      requires Exists(rows, id)
      modifies this
      ensures rows == old(rows)[id - 1 := Tombstone(old(rows)[id - 1], now)]
    {
      rows := rows[id - 1 := rows[id - 1].(deletedAt := Some(now), content := "[deleted]", updatedAt := now)];
    }

    method DropReply(p: Id, now: Time)
      requires Exists(rows, p)
      modifies this
      ensures rows == old(rows)[p - 1 := ReplyDropped(old(rows)[p - 1], now)]
    {
      var fewer := rows[p - 1].replyCount - 1;
      rows := rows[p - 1 := rows[p - 1].(replyCount := if fewer > 0 then fewer else 0, updatedAt := now)];
    }

    method Delete(id: Id, now: Time) returns (r: Outcome)
      requires Valid()
      modifies this
      ensures Valid() && rows == Apply(old(rows), Op.Delete(id, now))
      ensures r == if Live(old(rows), id) then Ok else NotFound
    {
      if !(1 <= id <= |rows|) || rows[id - 1].deletedAt.Some? {
        return NotFound;
      }
      DeleteKeepsInv(rows, id, now);
      DeleteInTwoWrites(rows, id, now);
      var parent := rows[id - 1].parent;
      MarkDeleted(id, now);
      if parent.Some? {
        DropReply(parent.value, now);
      }
      r := Ok;
    }

    method Update(id: Id, content: string, now: Time) returns (r: Outcome)
      requires Valid()
      modifies this
      ensures Valid() && rows == Apply(old(rows), Op.Update(id, content, now))
      ensures r == if Live(old(rows), id) then Ok else NotFound
    {
      ApplyKeepsInv(rows, Op.Update(id, content, now));
      if !(1 <= id <= |rows|) || rows[id - 1].deletedAt.Some? {
        return NotFound;
      }
      rows := rows[id - 1 := rows[id - 1].(content := content, editedAt := Some(now), updatedAt := now)];
      r := Ok;
    }

    /** The number of pinned rows of a channel, deleted ones included. */
    method CountPinned(ch: Channel) returns (n: nat)
      requires Valid()
      ensures n == Count(rows, PinnedIn(ch)) <= MAX_PINS
    {
      n := 0;
      for i := 0 to |rows|
        invariant n == Count(rows[..i], PinnedIn(ch))
      {
        assert rows[..i + 1] == rows[..i] + [rows[i]];
        CountAppend(rows[..i], rows[i], PinnedIn(ch));
        if rows[i].channel == ch && rows[i].pinnedAt.Some? {
          n := n + 1;
        }
      }
      assert rows[..|rows|] == rows;
    }

    method PinMessage(id: Id, user: User, now: Time) returns (r: Outcome)
      requires Valid()
      modifies this
      ensures Valid() && rows == Apply(old(rows), Op.Pin(id, user, now))
      ensures r == Allowed(old(rows), Op.Pin(id, user, now))
    {
      PinKeepsInv(rows, id, user, now);
      if !(1 <= id <= |rows|) {
        return NotFound;
      }
      var count := CountPinned(rows[id - 1].channel);
      if count >= MAX_PINS {
        return PinLimitReached;
      }
      rows := rows[id - 1 := rows[id - 1].(pinnedAt := Some(now), pinnedBy := Some(user))];
      r := Ok;
    }

    method UnpinMessage(id: Id)
      requires Valid()
      modifies this
      ensures Valid() && rows == Apply(old(rows), Op.Unpin(id))
    {
      UnpinKeepsInv(rows, id);
      if 1 <= id <= |rows| {
        rows := rows[id - 1 := rows[id - 1].(pinnedAt := None, pinnedBy := None)];
      }
    }
  }
}
