/** What a message row holds after a whole run of writes
    (server/internal/message/repository.go): what its creator sent, the last edit or
    the tombstone, and the last pin. */
module RowHistory {
  import opened Common
  import opened Messages

  predicate EditsOrDeletes(op: Op, id: Id) {
    (op.Update? || op.Delete?) && op.id == id
  }

  predicate PinsOrUnpins(op: Op, id: Id) {
    (op.Pin? || op.Unpin?) && op.id == id
  }

  ghost predicate NoneOf(ops: seq<Op>, id: Id, what: (Op, Id) -> bool) {
    forall i :: 0 <= i < |ops| ==> !what(ops[i], id)
  }

  // ---------- what other writes leave alone ----------

  lemma OneWriteKeeps(t: Table, op: Op, id: Id)
    requires Exists(t, id)
    ensures Exists(Apply(t, op), id)
    ensures var m, n := t[id - 1], Apply(t, op)[id - 1];
            (!EditsOrDeletes(op, id) || m.deletedAt.Some? ==>
               n.content == m.content && n.editedAt == m.editedAt && n.deletedAt == m.deletedAt) &&
            (!PinsOrUnpins(op, id) ==> n.pinnedAt == m.pinnedAt && n.pinnedBy == m.pinnedBy)
  {}

  lemma {:induction false} ContentStays(t: Table, ops: seq<Op>, id: Id)
    requires Exists(t, id) && NoneOf(ops, id, EditsOrDeletes)
    ensures Exists(Run(t, ops), id)
    ensures var m, n := t[id - 1], Run(t, ops)[id - 1];
            n.content == m.content && n.editedAt == m.editedAt && n.deletedAt == m.deletedAt
    decreases |ops|
  {
    if ops == [] {
    } else {
      OneWriteKeeps(t, ops[0], id);
      assert !EditsOrDeletes(ops[0], id);
      assert forall i :: 0 <= i < |ops[1..]| ==> ops[1..][i] == ops[i + 1];
      ContentStays(Apply(t, ops[0]), ops[1..], id);
    }
  }

  lemma {:induction false} PinStays(t: Table, ops: seq<Op>, id: Id)
    requires Exists(t, id) && NoneOf(ops, id, PinsOrUnpins)
    ensures Exists(Run(t, ops), id)
    ensures Run(t, ops)[id - 1].pinnedAt == t[id - 1].pinnedAt && Run(t, ops)[id - 1].pinnedBy == t[id - 1].pinnedBy
    decreases |ops|
  {
    if ops == [] {
    } else {
      OneWriteKeeps(t, ops[0], id);
      assert !PinsOrUnpins(ops[0], id);
      assert forall i :: 0 <= i < |ops[1..]| ==> ops[1..][i] == ops[i + 1];
      PinStays(Apply(t, ops[0]), ops[1..], id);
    }
  }

  /** A tombstone is never written again. */
  lemma {:induction false} TombstoneStays(t: Table, ops: seq<Op>, id: Id)
    requires Exists(t, id) && t[id - 1].deletedAt.Some?
    ensures Exists(Run(t, ops), id)
    ensures var m, n := t[id - 1], Run(t, ops)[id - 1];
            n.content == m.content && n.editedAt == m.editedAt && n.deletedAt == m.deletedAt
    decreases |ops|
  {
    if ops == [] {
    } else {
      OneWriteKeeps(t, ops[0], id);
      TombstoneStays(Apply(t, ops[0]), ops[1..], id);
    }
  }

  // ---------- what a row holds in the end ----------

  /** Whatever is written later, a message keeps its channel, author, mentions, parent,
      "also send" flag and time, and its text until it is edited or deleted. */
  lemma WhatWasSentIsKept(t: Table, d: Draft, now: Time, ops: seq<Op>)
    requires d.parent.Some? ==> 1 <= d.parent.value <= |t|
    ensures var id := |t| + 1;
            var last := Run(Apply(t, Create(d, now)), ops);
            Exists(last, id) && last[id - 1].id == id && last[id - 1].channel == d.channel &&
            last[id - 1].author == d.author && last[id - 1].mentions == d.mentions &&
            last[id - 1].parent == d.parent && last[id - 1].alsoSend == d.alsoSend && last[id - 1].createdAt == now &&
            (NoneOf(ops, id, EditsOrDeletes) ==>
               last[id - 1].content == d.content && last[id - 1].editedAt == None && last[id - 1].deletedAt == None) &&
            (NoneOf(ops, id, PinsOrUnpins) ==> last[id - 1].pinnedAt == None && last[id - 1].pinnedBy == None)
  {
    var id, t1 := |t| + 1, Apply(t, Create(d, now));
    RunExtends(t1, ops);
    assert SameKey(t1[id - 1], Run(t1, ops)[id - 1]);
    if NoneOf(ops, id, EditsOrDeletes) {
      ContentStays(t1, ops, id);
    }
    if NoneOf(ops, id, PinsOrUnpins) {
      PinStays(t1, ops, id);
    }
  }

  /** An edit shows until the next edit or the deletion; editing a missing or deleted
      message changes nothing. */
  lemma LastEditShows(t: Table, id: Id, content: string, now: Time, ops: seq<Op>)
    ensures var t1 := Apply(t, Update(id, content, now));
            if 1 <= id <= |t| && t[id - 1].deletedAt == None then
              Exists(t1, id) && t1[id - 1].updatedAt == now &&
              (NoneOf(ops, id, EditsOrDeletes) ==>
                 Exists(Run(t1, ops), id) && Run(t1, ops)[id - 1].content == content &&
                 Run(t1, ops)[id - 1].editedAt == Some(now) && Run(t1, ops)[id - 1].deletedAt == None)
            else t1 == t
  {
    var t1 := Apply(t, Update(id, content, now));
    if Live(t, id) && NoneOf(ops, id, EditsOrDeletes) {
      ContentStays(t1, ops, id);
    }
  }

  /** A deleted message reads "[deleted]" from then on, with the time of its deletion. */
  lemma DeletedForGood(t: Table, id: Id, now: Time, ops: seq<Op>)
    requires 1 <= id <= |t| && t[id - 1].deletedAt == None
    ensures var t1 := Apply(t, Delete(id, now));
            Exists(t1, id) && t1[id - 1].updatedAt == now && Exists(Run(t1, ops), id) &&
            Run(t1, ops)[id - 1].content == "[deleted]" && Run(t1, ops)[id - 1].deletedAt == Some(now) &&
            Run(t1, ops)[id - 1].editedAt == t[id - 1].editedAt
  {
    TombstoneStays(Apply(t, Delete(id, now)), ops, id);
  }

  /** A pin shows, with its time and user, until the message is pinned again or
      unpinned; deleting the message does not take it off. */
  lemma LastPinShows(t: Table, id: Id, user: User, now: Time, ops: seq<Op>)
    requires Exists(t, id) && NoneOf(ops, id, PinsOrUnpins)
    ensures var pinned, unpinned := Run(Apply(t, Pin(id, user, now)), ops), Run(Apply(t, Unpin(id)), ops);
            Exists(pinned, id) && Exists(unpinned, id) &&
            (Allowed(t, Pin(id, user, now)) == Ok ==>
               pinned[id - 1].pinnedAt == Some(now) && pinned[id - 1].pinnedBy == Some(user)) &&
            unpinned[id - 1].pinnedAt == None && unpinned[id - 1].pinnedBy == None
  {
    PinStays(Apply(t, Pin(id, user, now)), ops, id);
    PinStays(Apply(t, Unpin(id)), ops, id);
  }

  /** A pin is refused exactly when the row is missing or the channel has fifty pins. */
  lemma FiftyPinsPerChannel(t: Table, id: Id, user: User, now: Time)
    ensures Allowed(t, Pin(id, user, now)) == NotFound <==> !(1 <= id <= |t|)
    ensures Allowed(t, Pin(id, user, now)) == PinLimitReached
       <==> 1 <= id <= |t| && Count(t, (m: Message) => m.channel == t[id - 1].channel && m.pinnedAt.Some?) >= 50
    ensures Allowed(t, Pin(id, user, now)) != Ok ==> Apply(t, Pin(id, user, now)) == t
  {
    if 1 <= id <= |t| {
      var ch := t[id - 1].channel;
      CountAgree(t, t, PinnedIn(ch), (m: Message) => m.channel == ch && m.pinnedAt.Some?);
    }
  }

  /** A reply counts at its parent and dates it; so does the deletion of a live reply. */
  lemma RepliesTouchTheParent(t: Table, d: Draft, id: Id, now: Time)
    requires Inv(t)
    ensures d.parent.Some? && 1 <= d.parent.value <= |t| ==>
              var p, t' := d.parent.value, Apply(t, Create(d, now));
              |t'| == |t| + 1 && t'[p - 1].replyCount == t[p - 1].replyCount + 1 &&
              t'[p - 1].lastReplyAt == Some(now) && t'[p - 1].updatedAt == now
    ensures 1 <= id <= |t| && t[id - 1].deletedAt == None && t[id - 1].parent.Some? ==>
              var p, t' := t[id - 1].parent.value, Apply(t, Delete(id, now));
              1 <= p < id && |t'| == |t| && t'[p - 1].replyCount == t[p - 1].replyCount - 1 &&
              t'[p - 1].lastReplyAt == t[p - 1].lastReplyAt && t'[p - 1].updatedAt == now
  {
    if Live(t, id) && t[id - 1].parent.Some? {
      ClampNeverFires(t, id);
    }
  }
}
