/** The thread-parent checks of SendMessage (server/internal/handler/message.go). They
    are made on a row read before the message is created; other writes may come in
    between. */
module Posting {
  import opened Common
  import opened Messages

  datatype Verdict = Accepted | ParentNotFound | OtherChannel | ParentIsAReply

  function CheckParent(t: Table, ch: Channel, parent: Option<Id>): Verdict {
    if parent.None? then Accepted
    else if !Exists(t, parent.value) then ParentNotFound
    else if t[parent.value - 1].channel != ch then OtherChannel
    else if t[parent.value - 1].parent.Some? then ParentIsAReply
    else Accepted
  }

  /** Every reply hangs below a top-level message of its own channel. */
  predicate Flat(t: Table) {
    forall i :: 0 <= i < |t| ==> HangsFlat(t, t[i].channel, t[i].parent)
  }

  predicate HangsFlat(t: Table, ch: Channel, parent: Option<Id>) {
    parent.None? ||
    (1 <= parent.value <= |t| && t[parent.value - 1].channel == ch && t[parent.value - 1].parent.None?)
  }

  /** A reply is accepted exactly below a top-level message of its own channel; it is
      refused for a missing parent first, then for another channel, then for a parent
      that is a reply. */
  lemma VerdictMeaning(t: Table, ch: Channel, parent: Option<Id>)
    ensures CheckParent(t, ch, parent) == Accepted <==> HangsFlat(t, ch, parent)
    ensures CheckParent(t, ch, parent) == ParentNotFound <==> parent.Some? && !(1 <= parent.value <= |t|)
    ensures CheckParent(t, ch, parent) == OtherChannel
       <==> parent.Some? && 1 <= parent.value <= |t| && t[parent.value - 1].channel != ch
  {}

  /** What the check looked at never changes, so its verdict "accepted" stays right
      however late the message is created. */
  lemma AcceptedStays(t: Table, t': Table, ch: Channel, parent: Option<Id>)
    requires Extends(t, t') && CheckParent(t, ch, parent) == Accepted
    ensures CheckParent(t', ch, parent) == Accepted
  {
    if parent.Some? {
      assert SameKey(t[parent.value - 1], t'[parent.value - 1]);
    }
  }

  /** Creating a message keeps threads flat exactly when its parent passes the check;
      scheduled sends create replies without it. */
  lemma CreateKeepsFlatIffAccepted(t: Table, d: Draft, now: Time)
    requires Flat(t) && Allowed(t, Create(d, now)) == Ok
    ensures Flat(Apply(t, Create(d, now))) <==> CheckParent(t, d.channel, d.parent) == Accepted
  {
    var t' := Apply(t, Create(d, now));
    var n := |t|;
    ApplyExtends(t, Create(d, now));
    assert t'[n].channel == d.channel && t'[n].parent == d.parent;
    if d.parent.Some? {
      assert SameKey(t[d.parent.value - 1], t'[d.parent.value - 1]);
    }
    assert CheckParent(t', d.channel, d.parent) == CheckParent(t, d.channel, d.parent);
    forall i | 0 <= i < n
      ensures CheckParent(t', t'[i].channel, t'[i].parent) == Accepted
    {
      assert SameKey(t[i], t'[i]);
      AcceptedStays(t, t', t[i].channel, t[i].parent);
    }
  }

  lemma OtherWritesKeepFlat(t: Table, op: Op)
    requires Flat(t) && !op.Create?
    ensures Flat(Apply(t, op))
  {
    var t' := Apply(t, op);
    ApplyExtends(t, op);
    assert |t'| == |t|;
    forall i | 0 <= i < |t'|
      ensures CheckParent(t', t'[i].channel, t'[i].parent) == Accepted
    {
      assert SameKey(t[i], t'[i]);
      AcceptedStays(t, t', t[i].channel, t[i].parent);
    }
  }

  /** Each message created in the run was accepted against the table as it stood at
      that moment or at some earlier one. */
  ghost predicate CheckedEarlier(t: Table, ops: seq<Op>) {
    forall i :: 0 <= i < |ops| && ops[i].Create? ==>
      exists j :: 0 <= j <= i && CheckParent(Run(t, ops[..j]), ops[i].draft.channel, ops[i].draft.parent) == Accepted
  }

  lemma {:induction false} RunSnoc(t: Table, ops: seq<Op>, op: Op)
    ensures Run(t, ops + [op]) == Apply(Run(t, ops), op)
  {
    RunConcat(t, ops, [op]);
    assert Run(Apply(Run(t, ops), op), [op][1..]) == Apply(Run(t, ops), op);
  }

  lemma CheckedPrefix(t: Table, ops: seq<Op>, n: nat)
    requires CheckedEarlier(t, ops) && n <= |ops|
    ensures CheckedEarlier(t, ops[..n])
  {
    forall i | 0 <= i < n && ops[..n][i].Create?
      ensures exists j :: 0 <= j <= i &&
                CheckParent(Run(t, ops[..n][..j]), ops[i].draft.channel, ops[i].draft.parent) == Accepted
    {
      var j :| 0 <= j <= i && CheckParent(Run(t, ops[..j]), ops[i].draft.channel, ops[i].draft.parent) == Accepted;
      assert ops[..n][..j] == ops[..j];
    }
  }

  /** As long as messages come from SendMessage, threads stay one level deep and
      within their channel, although every check may be out of date by the time its
      message is created. */
  lemma {:induction false} ThreadsStayFlat(t: Table, ops: seq<Op>)
    requires Flat(t) && CheckedEarlier(t, ops)
    ensures Flat(Run(t, ops))
    decreases |ops|
  {
    if ops == [] {
    } else {
      var n := |ops| - 1;
      var before, op := Run(t, ops[..n]), ops[n];
      CheckedPrefix(t, ops, n);
      ThreadsStayFlat(t, ops[..n]);
      assert ops == ops[..n] + [op];
      RunSnoc(t, ops[..n], op);
      if op.Create? {
        var j :| 0 <= j <= n && CheckParent(Run(t, ops[..j]), op.draft.channel, op.draft.parent) == Accepted;
        LaterTable(t, ops[..n], j);
        assert ops[..n][..j] == ops[..j];
        AcceptedStays(Run(t, ops[..j]), before, op.draft.channel, op.draft.parent);
        if Allowed(before, op) == Ok {
          CreateKeepsFlatIffAccepted(before, op.draft, op.now);
        }
      } else {
        OtherWritesKeepFlat(before, op);
      }
    }
  }

  lemma LaterTable(t: Table, ops: seq<Op>, j: nat)
    requires j <= |ops|
    ensures Extends(Run(t, ops[..j]), Run(t, ops))
  {
    assert ops == ops[..j] + ops[j..];
    RunConcat(t, ops[..j], ops[j..]);
    RunExtends(Run(t, ops[..j]), ops[j..]);
  }
}
