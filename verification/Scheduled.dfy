/** The claim, send and release protocol of scheduled messages
    (server/internal/handler/scheduled_message.go, server/internal/scheduled).

    Any number of senders - "send now" requests and workers - and of edit, delete and
    attachment requests interleave; every write to a row, and the reads that decide
    one, are steps of their own. */
module Scheduled {
  import opened Common

  type RowId = nat
  type Actor = nat

  const MAX_RETRIES := 3
  const STUCK_AFTER := 300

  datatype Status = Pending | Sending | Failed
  datatype Row = Row(status: Status, retries: nat, updatedAt: Time)
  type Rows = map<RowId, Row>

  datatype Origin = SendNow | Worker

  /** Where an actor stands. `seen` is the retry count in the copy of the row it
      read before claiming, `since` the time of its claim. */
  datatype Phase =
    | Idle
    | Claimed(id: RowId, origin: Origin, seen: nat, since: Time)
    | Failing(id: RowId, origin: Origin, seen: nat, permanent: bool, since: Time)
    | Committed(id: RowId, since: Time)
    | Editing(id: RowId)
    | Deleting(id: RowId)

  /** `sent` counts the chat messages created from each scheduled message. */
  datatype State = State(rows: Rows, phases: map<Actor, Phase>, sent: multiset<RowId>, nextId: RowId, now: Time)

  datatype Step =
    | Schedule
    | Claim(k: Actor, id: RowId, origin: Origin, seen: nat)
    | Fail(k: Actor, permanent: bool)
    | Commit(k: Actor)
    | Cleanup(k: Actor, ok: bool)
    | Settle(k: Actor, ok: bool)
    | Crash(k: Actor)
    | ResetStuck
    | BeginEdit(k: Actor, id: RowId)
    | FinishEdit(k: Actor)
    | BeginDelete(k: Actor, id: RowId)
    | FinishDelete(k: Actor)
    | Stamp(id: RowId, at: Time)
    | Tick

  // ---------- the repository's statements ----------

  function WithStatus(rows: Rows, id: RowId, status: Status, retries: nat, now: Time): Rows {
    if id in rows then rows[id := Row(status, retries, now)] else rows
  }

  predicate Claimable(rows: Rows, id: RowId) {
    id in rows && rows[id].status == Pending
  }

  function MarkSending(rows: Rows, id: RowId, now: Time): Rows {
    if Claimable(rows, id) then rows[id := rows[id].(status := Sending, updatedAt := now)] else rows
  }

  function MarkFailed(rows: Rows, id: RowId, now: Time): Rows {
    if id in rows then rows[id := rows[id].(status := Failed, updatedAt := now)] else rows
  }

  function IncrementRetry(rows: Rows, id: RowId, now: Time): Rows {
    if id in rows then rows[id := Row(Pending, rows[id].retries + 1, now)] else rows
  }

  predicate Stuck(r: Row, now: Time) {
    r.status == Sending && r.updatedAt + STUCK_AFTER < now
  }

  function ResetRow(r: Row, now: Time): Row {
    if Stuck(r, now) then Row(Pending, r.retries + 1, now) else r
  }

  function ResetStuckRows(rows: Rows, now: Time): Rows {
    map id | id in rows :: ResetRow(rows[id], now)
  }

  /** Removing an attachment rewrites the row, with a time read before: only the time
      stamp matters here. */
  function Stamped(rows: Rows, id: RowId, at: Time): Rows {
    if id in rows then rows[id := rows[id].(updatedAt := at)] else rows
  }

  /** After a failed send: give up, or put the row back for a retry. */
  predicate GivesUp(origin: Origin, seen: nat, permanent: bool) {
    permanent || (origin == Worker && seen + 1 >= MAX_RETRIES)
  }

  // ---------- the state machine ----------

  function PhaseOf(s: State, k: Actor): Phase {
    if k in s.phases then s.phases[k] else Idle
  }

  function Go(s: State, k: Actor, p: Phase): State {
    s.(phases := s.phases[k := p])
  }

  /** One step; a step that is not enabled changes nothing. */
  function Next(s: State, step: Step): State {
    match step
    case Schedule => s.(rows := s.rows[s.nextId := Row(Pending, 0, s.now)], nextId := s.nextId + 1)
    case Claim(k, id, origin, seen) =>
      if PhaseOf(s, k) != Idle || !Claimable(s.rows, id) then s
      else Go(s, k, Claimed(id, origin, seen, s.now)).(rows := MarkSending(s.rows, id, s.now))
    case Fail(k, permanent) =>
      if !PhaseOf(s, k).Claimed? then s
      else var p := PhaseOf(s, k); Go(s, k, Failing(p.id, p.origin, p.seen, permanent, p.since))
    case Commit(k) =>
      if !PhaseOf(s, k).Claimed? then s
      else var p := PhaseOf(s, k); Go(s, k, Committed(p.id, p.since)).(sent := s.sent + multiset{p.id})
    case Cleanup(k, ok) =>
      if !PhaseOf(s, k).Committed? then s
      else Go(s, k, Idle).(rows := if ok then s.rows - {PhaseOf(s, k).id} else s.rows)
    case Settle(k, ok) =>
      if !PhaseOf(s, k).Failing? then s
      else
        var p := PhaseOf(s, k);
        Go(s, k, Idle).(rows := if !ok then s.rows
                                else if GivesUp(p.origin, p.seen, p.permanent) then MarkFailed(s.rows, p.id, s.now)
                                else IncrementRetry(s.rows, p.id, s.now))
    case Crash(k) => Go(s, k, Idle)
    case ResetStuck => s.(rows := ResetStuckRows(s.rows, s.now))
    case BeginEdit(k, id) =>
      if PhaseOf(s, k) != Idle || id !in s.rows || s.rows[id].status == Sending then s else Go(s, k, Editing(id))
    case FinishEdit(k) =>
      if !PhaseOf(s, k).Editing? then s
      else Go(s, k, Idle).(rows := WithStatus(s.rows, PhaseOf(s, k).id, Pending, 0, s.now))
    case BeginDelete(k, id) =>
      if PhaseOf(s, k) != Idle || id !in s.rows || s.rows[id].status == Sending then s else Go(s, k, Deleting(id))
    case FinishDelete(k) =>
      if !PhaseOf(s, k).Deleting? then s else Go(s, k, Idle).(rows := s.rows - {PhaseOf(s, k).id})
    case Stamp(id, at) => if at <= s.now then s.(rows := Stamped(s.rows, id, at)) else s
    case Tick => s.(now := s.now + 1)
  }

  function Run(s: State, steps: seq<Step>): State
    decreases |steps|
  {
    if steps == [] then s else Run(Next(s, steps[0]), steps[1..])
  }

  const INITIAL := State(map[], map[], multiset{}, 0, 0)

  // ---------- what is guaranteed, and when ----------

  /** At most one chat message per scheduled message, and once it is out the row
      is gone or still marked "sending". */
  ghost predicate Safe(s: State) {
    forall id: RowId :: s.sent[id] <= 1 && (s.sent[id] == 1 ==> id !in s.rows || s.rows[id].status == Sending)
  }

  /** The actor has claimed the row and neither committed nor released it. */
  predicate Holds(p: Phase, id: RowId) {
    (p.Claimed? || p.Failing?) && p.id == id
  }

  /** Somebody is working on the row, or it has been sent. */
  ghost predicate Locked(s: State, id: RowId) {
    s.sent[id] > 0 || exists k :: k in s.phases && Holds(s.phases[k], id)
  }

  ghost predicate Inv(s: State) {
    (forall id: RowId :: s.sent[id] <= 1) &&
    (forall id :: id in s.rows && Locked(s, id) ==> s.rows[id].status == Sending) &&
    (forall k :: k in s.phases && (s.phases[k].Claimed? || s.phases[k].Failing?) ==> s.sent[s.phases[k].id] == 0) &&
    (forall j, k, id :: j in s.phases && k in s.phases && Holds(s.phases[j], id) && Holds(s.phases[k], id) ==>
       j == k) &&
    (forall id: RowId :: Locked(s, id) ==> id < s.nextId) && (forall id :: id in s.rows ==> id < s.nextId)
  }

  /** Only two steps take a row out of "sending" without owning it: the crash
      recovery and the write of an edit whose status check is out of date. They are
      clean when the row they release is neither being worked on nor sent. */
  ghost predicate Clean(s: State, step: Step) {
    match step
    case ResetStuck => forall id :: id in s.rows && Stuck(s.rows[id], s.now) ==> !Locked(s, id)
    case FinishEdit(k) => PhaseOf(s, k).Editing? && PhaseOf(s, k).id in s.rows ==> !Locked(s, PhaseOf(s, k).id)
    case _ => true
  }

  ghost predicate AllClean(s: State, steps: seq<Step>)
    decreases |steps|
  {
    steps == [] || (Clean(s, steps[0]) && AllClean(Next(s, steps[0]), steps[1..]))
  }

  // ---------- every clean step keeps the invariant ----------

  /** The locks after an actor moves from one phase to another. */
  lemma LocksAfter(s: State, k: Actor, p: Phase, id: RowId)
    ensures Locked(Go(s, k, p), id) <==>
              s.sent[id] > 0 || Holds(p, id) || exists j :: j in s.phases && j != k && Holds(s.phases[j], id)
  {
    var t := Go(s, k, p);
    if Holds(p, id) { assert Holds(t.phases[k], id); }
    if j :| j in s.phases && j != k && Holds(s.phases[j], id) { assert Holds(t.phases[j], id); }
  }

  lemma OnlyHolder(s: State, k: Actor, id: RowId)
    requires Inv(s) && k in s.phases && Holds(s.phases[k], id)
    ensures s.sent[id] == 0 && Locked(s, id) && id < s.nextId
    ensures forall j :: j in s.phases && j != k ==> !Holds(s.phases[j], id)
  {
    assert exists j :: j in s.phases && Holds(s.phases[j], id);
    assert Locked(s, id);
  }

  lemma ClaimKeepsInv(s: State, k: Actor, id: RowId, origin: Origin, seen: nat)
    requires Inv(s)
    ensures Inv(Next(s, Claim(k, id, origin, seen)))
  {
    if PhaseOf(s, k) == Idle && Claimable(s.rows, id) {
      var t := Next(s, Claim(k, id, origin, seen));
      assert !Locked(s, id);
      forall x: RowId
        ensures Locked(t, x) <==> Locked(s, x) || x == id
      {
        LocksAfter(s, k, Claimed(id, origin, seen, s.now), x);
        assert Locked(t, x) <==> Locked(Go(s, k, Claimed(id, origin, seen, s.now)), x);
      }
    }
  }

  lemma CommitKeepsInv(s: State, k: Actor)
    requires Inv(s)
    ensures Inv(Next(s, Commit(k)))
  {
    if PhaseOf(s, k).Claimed? {
      var id := PhaseOf(s, k).id;
      var t := Next(s, Commit(k));
      OnlyHolder(s, k, id);
      forall x: RowId
        ensures Locked(t, x) <==> Locked(s, x)
      {
        LocksAfter(s, k, Committed(id, PhaseOf(s, k).since), x);
      }
    }
  }

  /** An actor moves and at most one row it alone held (or nobody locks) changes. */
  lemma MoveKeepsInv(s: State, k: Actor, p: Phase, rows: Rows)
    requires Inv(s) && rows.Keys <= s.rows.Keys
    requires p == Idle || p.Editing? || p.Deleting? ||
             (p.Failing? && PhaseOf(s, k).Claimed? && p.id == PhaseOf(s, k).id)
    requires forall id :: id in rows && Locked(Go(s, k, p), id) ==> rows[id].status == s.rows[id].status
    ensures Inv(Go(s, k, p).(rows := rows))
  {
    var t := Go(s, k, p).(rows := rows);
    forall id: RowId
      ensures Locked(t, id) ==> Locked(s, id)
      ensures Locked(t, id) <==> Locked(Go(s, k, p), id)
    {
      LocksAfter(s, k, p, id);
    }
  }

  lemma SettleKeepsInv(s: State, k: Actor, ok: bool)
    requires Inv(s)
    ensures Inv(Next(s, Settle(k, ok)))
  {
    if PhaseOf(s, k).Failing? {
      var id := PhaseOf(s, k).id;
      OnlyHolder(s, k, id);
      LocksAfter(s, k, Idle, id);
      MoveKeepsInv(s, k, Idle, Next(s, Settle(k, ok)).rows);
    }
  }

  lemma FinishEditKeepsInv(s: State, k: Actor)
    requires Inv(s) && Clean(s, FinishEdit(k))
    ensures Inv(Next(s, FinishEdit(k)))
  {
    if PhaseOf(s, k).Editing? {
      LocksAfter(s, k, Idle, PhaseOf(s, k).id);
      MoveKeepsInv(s, k, Idle, Next(s, FinishEdit(k)).rows);
    }
  }

  lemma ResetKeepsInv(s: State)
    requires Inv(s) && Clean(s, ResetStuck)
    ensures Inv(Next(s, ResetStuck))
  {
    var t := Next(s, ResetStuck);
    assert forall id: RowId :: Locked(t, id) <==> Locked(s, id);
  }

  lemma ScheduleKeepsInv(s: State)
    requires Inv(s)
    ensures Inv(Next(s, Schedule))
  {
    var t := Next(s, Schedule);
    assert forall id: RowId :: Locked(t, id) <==> Locked(s, id);
  }

  lemma CleanStepKeepsInv(s: State, step: Step)
    requires Inv(s) && Clean(s, step)
    ensures Inv(Next(s, step))
  {
    match step
    case Schedule => ScheduleKeepsInv(s);
    case Claim(k, id, origin, seen) => ClaimKeepsInv(s, k, id, origin, seen);
    case Fail(k, permanent) =>
      if PhaseOf(s, k).Claimed? {
        var p := PhaseOf(s, k);
        MoveKeepsInv(s, k, Failing(p.id, p.origin, p.seen, permanent, p.since), s.rows);
      }
    case Commit(k) => CommitKeepsInv(s, k);
    case Cleanup(k, ok) => if PhaseOf(s, k).Committed? { MoveKeepsInv(s, k, Idle, Next(s, step).rows); }
    case Settle(k, ok) => SettleKeepsInv(s, k, ok);
    case Crash(k) => MoveKeepsInv(s, k, Idle, s.rows);
    case ResetStuck => ResetKeepsInv(s);
    case BeginEdit(k, id) => if Next(s, step) != s { MoveKeepsInv(s, k, Editing(id), s.rows); }
    case FinishEdit(k) => FinishEditKeepsInv(s, k);
    case BeginDelete(k, id) => if Next(s, step) != s { MoveKeepsInv(s, k, Deleting(id), s.rows); }
    case FinishDelete(k) => if PhaseOf(s, k).Deleting? { MoveKeepsInv(s, k, Idle, Next(s, step).rows); }
    case Stamp(id, at) => assert forall x: RowId :: Locked(Next(s, step), x) <==> Locked(s, x);
    case Tick => assert forall id: RowId :: Locked(Next(s, step), id) <==> Locked(s, id);
  }

  /** Safety over whole runs. */
  lemma {:induction false} CleanRunIsSafe(s: State, steps: seq<Step>)
    requires Inv(s) && AllClean(s, steps)
    ensures Inv(Run(s, steps)) && Safe(Run(s, steps))
    decreases |steps|
  {
    if steps == [] {
    } else {
      CleanStepKeepsInv(s, steps[0]);
      CleanRunIsSafe(Next(s, steps[0]), steps[1..]);
    }
  }

  /** Without the crash recovery and edits - any number of requests and workers,
      failing, crashing or unable to clean up - every step is clean. */
  lemma {:induction false} SendersAloneAreClean(s: State, steps: seq<Step>)
    requires forall i :: 0 <= i < |steps| ==> steps[i] != ResetStuck && !steps[i].FinishEdit?
    ensures AllClean(s, steps)
    decreases |steps|
  {
    if steps == [] {
    } else {
      SendersAloneAreClean(Next(s, steps[0]), steps[1..]);
    }
  }

  /** From the empty table: whatever the senders meet, one scheduled message yields
      at most one chat message, and once sent its row is gone or still "sending". */
  lemma SendersNeverSendTwice(steps: seq<Step>)
    requires forall i :: 0 <= i < |steps| ==> steps[i] != ResetStuck && !steps[i].FinishEdit?
    ensures Safe(Run(INITIAL, steps))
  {
    SendersAloneAreClean(INITIAL, steps);
    CleanRunIsSafe(INITIAL, steps);
  }

  // ---------- and exactly then ----------

  /** A reachable state's step leaves every clean continuation safe exactly when the
      step itself is clean: releasing a row that is being worked on, or was sent,
      always has a continuation that breaks the guarantee. */
  lemma SafeExactlyWhenClean(s: State, step: Step)
    requires Inv(s)
    ensures Clean(s, step) <==>
              forall steps: seq<Step> :: AllClean(Next(s, step), steps) ==> Safe(Run(Next(s, step), steps))
  {
    var t := Next(s, step);
    if Clean(s, step) {
      CleanStepKeepsInv(s, step);
      forall steps: seq<Step> | AllClean(t, steps)
        ensures Safe(Run(t, steps))
      {
        CleanRunIsSafe(t, steps);
      }
    } else {
      var id := ReleasedWhileLocked(s, step);
      var steps := BreakingRun(t, id);
    }
  }

  lemma ReleasedWhileLocked(s: State, step: Step) returns (id: RowId)
    requires Inv(s) && !Clean(s, step)
    ensures var t := Next(s, step); Claimable(t.rows, id) && Locked(t, id)
  {
    var t := Next(s, step);
    match step
    case ResetStuck =>
      id :| id in s.rows && Stuck(s.rows[id], s.now) && Locked(s, id);
      assert t.phases == s.phases && t.sent == s.sent;
    case FinishEdit(k) =>
      id := PhaseOf(s, k).id;
      LocksAfter(s, k, Idle, id);
      assert Locked(t, id) <==> Locked(Go(s, k, Idle), id);
  }

  lemma FreshActor(s: State) returns (k: Actor)
    ensures k !in s.phases
  {
    k := BoundOf(s.phases.Keys);
  }

  lemma {:induction false} BoundOf(ks: set<Actor>) returns (n: Actor)
    ensures forall k :: k in ks ==> k < n
  {
    if ks == {} {
      n := 0;
    } else {
      var x :| x in ks;
      var m := BoundOf(ks - {x});
      n := if x < m then m else x + 1;
      assert forall k :: k in ks ==> k == x || k in ks - {x};
    }
  }

  /** While h settles a failed send of a row that can be claimed, another actor sends it
      and h then puts it back. */
  lemma SettlingBreaks(s: State, id: RowId, h: Actor, j: Actor)
    requires Claimable(s.rows, id) && h in s.phases && s.phases[h].Failing? && s.phases[h].id == id
    requires j !in s.phases
    ensures !Safe(Run(s, [Claim(j, id, SendNow, 0), Commit(j), Settle(h, true)]))
  {
    var s1 := Next(s, Claim(j, id, SendNow, 0));
    var s2 := Next(s1, Commit(j));
    var s3 := Next(s2, Settle(h, true));
    RunThree(s, Claim(j, id, SendNow, 0), Commit(j), Settle(h, true));
    assert s3.sent[id] >= 1 && id in s3.rows && s3.rows[id].status != Sending;
  }

  lemma BreakingRun(s: State, id: RowId) returns (steps: seq<Step>)
    requires Claimable(s.rows, id) && Locked(s, id)
    ensures AllClean(s, steps) && !Safe(Run(s, steps))
  {
    if s.sent[id] > 0 {
      steps := [];
    } else {
      var h :| h in s.phases && Holds(s.phases[h], id);
      if s.phases[h].Claimed? {
        steps := [Commit(h)];
        assert Run(s, steps) == Next(s, Commit(h));
        assert Run(s, steps).sent[id] >= 1;
      } else {
        var j := FreshActor(s);
        SettlingBreaks(s, id, h, j);
        steps := [Claim(j, id, SendNow, 0), Commit(j), Settle(h, true)];
      }
      SendersAloneAreClean(s, steps);
    }
  }

  lemma RunTwo(s: State, a: Step, b: Step)
    ensures Run(s, [a, b]) == Next(Next(s, a), b)
  {
    assert [a, b][1..] == [b];
    assert Run(Next(s, a), [b]) == Next(Next(s, a), b);
  }

  lemma RunThree(s: State, a: Step, b: Step, c: Step)
    ensures Run(s, [a, b, c]) == Next(Next(Next(s, a), b), c)
  {
    assert [a, b, c][1..] == [b, c] && [b, c][1..] == [c];
    assert Run(Next(Next(s, a), b), [c]) == Next(Next(Next(s, a), b), c);
  }

  /** A sent row that has become claimable again can be sent again. */
  lemma ClaimableAgainIsSentAgain(s: State, id: RowId) returns (steps: seq<Step>)
    requires Claimable(s.rows, id)
    ensures AllClean(s, steps) && Run(s, steps).sent[id] == s.sent[id] + 1
  {
    var j := FreshActor(s);
    steps := [Claim(j, id, SendNow, 0), Commit(j)];
    SendersAloneAreClean(s, steps);
    RunTwo(s, steps[0], steps[1]);
  }

  // ---------- the repository and the "send now" request ----------

  /** What a send meets on its way, step by step. */
  datatype Weather = Weather(
    channelFound: bool, archived: bool, member: bool, membershipReadable: bool,
    createOk: bool, deleteOk: bool, settleOk: bool)

  datatype SendResult = Sent | PermanentError | TransientError

  datatype Reply = Ok | NotFound | Conflict | BadRequest | ServerError

  /** The message goes out: into an open channel that its author still belongs to. */
  predicate Delivers(w: Weather) {
    w.channelFound && !w.archived && w.membershipReadable && w.member && w.createOk
  }

  /** It never will: the channel is archived, or its author has left it. */
  predicate Refuses(w: Weather) {
    w.channelFound && (w.archived || (w.membershipReadable && !w.member))
  }

  function Attempt(w: Weather): SendResult {
    if !w.channelFound then TransientError
    else if w.archived then PermanentError
    else if !w.membershipReadable then TransientError
    else if !w.member then PermanentError
    else if !w.createOk then TransientError
    else Sent
  }

  /** The stuck rows among the given ids. */
  function StuckAmong(rows: Rows, ids: set<RowId>, now: Time): set<RowId> {
    set id | id in ids && id in rows && Stuck(rows[id], now)
  }

  lemma StuckStep(rows: Rows, ids: set<RowId>, id: RowId, now: Time)
    requires id !in ids && id in rows
    ensures |StuckAmong(rows, ids + {id}, now)| == |StuckAmong(rows, ids, now)| + Bit(Stuck(rows[id], now))
  {
    var more := if Stuck(rows[id], now) then {id} else {};
    assert StuckAmong(rows, ids + {id}, now) == StuckAmong(rows, ids, now) + more;
  }

  /** All rows but those left were looked at, and reset of them were stuck. */
  ghost predicate ResetUpTo(before: Rows, left: set<RowId>, now: Time, rows: Rows, reset: nat) {
    left <= before.Keys && rows.Keys == before.Keys &&
    (forall id :: id in before ==> rows[id] == if id in left then before[id] else ResetRow(before[id], now)) &&
    reset == |StuckAmong(before, before.Keys - left, now)|
  }

  lemma ResetStart(rows: Rows, now: Time)
    ensures ResetUpTo(rows, rows.Keys, now, rows, 0)
  {
    assert StuckAmong(rows, {}, now) == {};
    assert rows.Keys - rows.Keys == {};
  }

  lemma ResetStep(before: Rows, left: set<RowId>, now: Time, rows: Rows, reset: nat, id: RowId)
    requires ResetUpTo(before, left, now, rows, reset) && id in left
    ensures id in rows
    ensures if Stuck(rows[id], now)
            then ResetUpTo(before, left - {id}, now, rows[id := Row(Pending, rows[id].retries + 1, now)], reset + 1)
            else ResetUpTo(before, left - {id}, now, rows, reset)
  {
    StuckStep(before, before.Keys - left, id, now);
    assert before.Keys - left + {id} == before.Keys - (left - {id});
  }

  lemma ResetEnd(before: Rows, now: Time, rows: Rows, reset: nat)
    requires ResetUpTo(before, {}, now, rows, reset)
    ensures rows == ResetStuckRows(before, now) && reset == |StuckAmong(before, before.Keys, now)|
  {
    assert before.Keys - {} == before.Keys;
  }

  predicate IsPending(rows: Rows, id: RowId) {
    id in rows && rows[id].status == Pending
  }

  predicate OtherRowsKept(before: Rows, after: Rows, id: RowId) {
    before.Keys - {id} == after.Keys - {id} &&
    forall other :: other in before && other in after && other != id ==> after[other] == before[other]
  }

  /** What one attempt leaves behind: a row that was not pending is untouched; a row whose
      message went out is gone, or stays "sending" if the delete failed; after a failure
      that could be stored it is failed - because the message is refused or this was
      the last try - or pending with one more retry. */
  predicate Handled(before: Rows, after: Rows, id: RowId, w: Weather, lastTry: bool, now: Time) {
    OtherRowsKept(before, after, id) &&
    if !IsPending(before, id) then after == before
    else if Delivers(w) && w.deleteOk then id !in after
    else id in after &&
         after[id] == if Delivers(w) || !w.settleOk then Row(Sending, before[id].retries, now)
                      else if Refuses(w) || lastTry then Row(Failed, before[id].retries, now)
                      else Row(Pending, before[id].retries + 1, now)
  }

  class Repository {
    var rows: Rows
    var sent: multiset<RowId>

    method TryMarkSending(id: RowId, now: Time) returns (claimed: bool)
      modifies this`rows
      ensures rows == MarkSending(old(rows), id, now)
      ensures claimed <==> Claimable(old(rows), id)
      ensures claimed ==> !Claimable(rows, id)
    {
      claimed := id in rows && rows[id].status == Pending;
      if claimed {
        rows := rows[id := rows[id].(status := Sending, updatedAt := now)];
      }
    }

    /** MarkFailed: nobody can claim the row any more, and the recovery never puts it
        back; only an edit does. */
    method SetFailed(id: RowId, now: Time)
      modifies this`rows
      ensures rows.Keys == old(rows).Keys &&
              forall other :: other in rows && other != id ==> rows[other] == old(rows)[other]
      ensures id in rows ==> rows[id] == Row(Failed, old(rows)[id].retries, now)
      ensures !Claimable(rows, id) && forall later: Time :: !Claimable(ResetStuckRows(rows, later), id)
    {
      if id in rows {
        rows := rows[id := rows[id].(status := Failed, updatedAt := now)];
      }
    }

    /** IncrementRetry: anybody can claim the row again, and the attempt is counted. */
    method Retry(id: RowId, now: Time)
      modifies this`rows
      ensures rows.Keys == old(rows).Keys &&
              forall other :: other in rows && other != id ==> rows[other] == old(rows)[other]
      ensures id in rows ==>
                Claimable(rows, id) && rows[id].retries == old(rows)[id].retries + 1 && rows[id].updatedAt == now
    {
      if id in rows {
        rows := rows[id := Row(Pending, rows[id].retries + 1, now)];
      }
    }

    /** ResetStuckSending: one row after another, with the number of rows changed. */
    method ResetStuckSending(now: Time) returns (reset: nat)
      modifies this`rows
      ensures rows == ResetStuckRows(old(rows), now)
      ensures rows.Keys == old(rows).Keys
      ensures forall id :: id in rows ==>
                rows[id] == if old(rows)[id].status == Sending && old(rows)[id].updatedAt + 300 < now
                            then Row(Pending, old(rows)[id].retries + 1, now) else old(rows)[id]
      ensures reset == |set id | id in old(rows) && old(rows)[id].status == Sending &&
                                  old(rows)[id].updatedAt + 300 < now|
    {
      ghost var before := rows;
      var left := rows.Keys;
      reset := 0;
      ResetStart(rows, now);
      while left != {}
        invariant ResetUpTo(before, left, now, rows, reset)
        decreases |left|
      {
        var id :| id in left;
        ResetStep(before, left, now, rows, reset, id);
        left := left - {id};
        if rows[id].status == Sending && rows[id].updatedAt + STUCK_AFTER < now {
          rows := rows[id := Row(Pending, rows[id].retries + 1, now)];
          reset := reset + 1;
        }
      }
      ResetEnd(before, now, rows, reset);
      assert StuckAmong(before, before.Keys, now)
          == set id | id in before && before[id].status == Sending && before[id].updatedAt + 300 < now;
    }

    /** executeScheduledSend: every error return comes before the message is created;
        the row is deleted last, and a failed delete is only logged. */
    method ExecuteScheduledSend(id: RowId, w: Weather) returns (r: SendResult)
      modifies this
      ensures r == Attempt(w)
      ensures (r == Sent <==> Delivers(w)) && (r == PermanentError <==> Refuses(w))
      ensures sent == old(sent) + (if r == Sent then multiset{id} else multiset{})
      ensures rows == if r == Sent && w.deleteOk then old(rows) - {id} else old(rows)
    {
      if !w.channelFound {
        return TransientError;
      }
      if w.archived {
        return PermanentError;
      }
      if !w.membershipReadable {
        return TransientError;
      }
      if !w.member {
        return PermanentError;
      }
      if !w.createOk {
        return TransientError;
      }
      sent := sent + multiset{id};
      if w.deleteOk {
        rows := rows - {id};
      }
      r := Sent;
    }

    /** SendScheduledMessageNow, uninterrupted: claim, attempt, and release on
        failure. It is a run of the protocol's steps by one actor. */
    method SendScheduledMessageNow(id: RowId, seen: nat, w: Weather, now: Time, ghost s: State, ghost k: Actor)
      returns (reply: Reply)
      requires s.rows == rows && s.sent == sent && s.now == now && PhaseOf(s, k) == Idle
      modifies this
      ensures var t := Run(s, SendSteps(k, SendNow, id, seen, w));
              rows == t.rows && sent == t.sent && PhaseOf(t, k) == Idle
      ensures reply == Ok <==> sent != old(sent)
      ensures reply == NotFound <==> id !in old(rows)
      ensures reply == Conflict <==> id in old(rows) && old(rows)[id].status != Pending
      ensures reply == Conflict || reply == NotFound ==> rows == old(rows) && sent == old(sent)
      ensures reply == Ok <==> IsPending(old(rows), id) && Delivers(w)
      ensures reply == BadRequest <==> IsPending(old(rows), id) && Refuses(w)
      ensures reply == ServerError <==> IsPending(old(rows), id) && !Delivers(w) && !Refuses(w)
      ensures sent == old(sent) + (if IsPending(old(rows), id) && Delivers(w) then multiset{id} else multiset{})
      ensures Handled(old(rows), rows, id, w, false, now)
    {
      SendOutcome(s, k, SendNow, id, seen, w);
      StepsHandle(s, k, SendNow, id, seen, w);
      if id !in rows {
        return NotFound;
      }
      var claimed := TryMarkSending(id, now);
      if !claimed {
        return Conflict;
      }
      var r := ExecuteScheduledSend(id, w);
      ghost var left := rows;
      match r {
        case Sent => reply := Ok;
        case PermanentError =>
          if w.settleOk {
            SetFailed(id, now);
            assert rows == MarkFailed(left, id, now);
          }
          reply := BadRequest;
        case TransientError =>
          if w.settleOk {
            Retry(id, now);
            assert rows == IncrementRetry(left, id, now);
          }
          reply := ServerError;
      }
    }

    /** The body of the worker's loop over the due messages; seen is the retry count in
        the copy of the row it listed. */
    method ProcessMessage(id: RowId, seen: nat, w: Weather, now: Time, ghost s: State, ghost k: Actor)
      requires s.rows == rows && s.sent == sent && s.now == now && PhaseOf(s, k) == Idle
      modifies this
      ensures var t := Run(s, SendSteps(k, Worker, id, seen, w));
              rows == t.rows && sent == t.sent && PhaseOf(t, k) == Idle
      ensures sent == old(sent) + (if IsPending(old(rows), id) && Delivers(w) then multiset{id} else multiset{})
      ensures Handled(old(rows), rows, id, w, seen >= 2, now)
    {
      SendOutcome(s, k, Worker, id, seen, w);
      StepsHandle(s, k, Worker, id, seen, w);
      var claimed := TryMarkSending(id, now);
      if !claimed {
        return;
      }
      var r := ExecuteScheduledSend(id, w);
      ghost var left := rows;
      if r != Sent && w.settleOk {
        if r == PermanentError || seen + 1 >= MAX_RETRIES {
          SetFailed(id, now);
          assert rows == MarkFailed(left, id, now);
        } else {
          Retry(id, now);
          assert rows == IncrementRetry(left, id, now);
        }
      }
    }

    /** UpdateScheduledMessage, uninterrupted: unless the row is being sent it can be
        claimed again afterwards, with its retries forgotten. */
    method UpdateScheduledMessage(id: RowId, now: Time, ghost s: State, ghost k: Actor) returns (reply: Reply)
      requires s.rows == rows && s.now == now && PhaseOf(s, k) == Idle
      modifies this`rows
      ensures rows == Run(s, [BeginEdit(k, id), FinishEdit(k)]).rows
      ensures reply == NotFound <==> id !in old(rows)
      ensures reply == Conflict <==> id in old(rows) && old(rows)[id].status == Sending
      ensures reply == Ok || reply == NotFound || reply == Conflict
      ensures if reply == Ok then id in rows && rows[id] == Row(Pending, 0, now) else rows == old(rows)
      ensures OtherRowsKept(old(rows), rows, id)
    {
      RunTwo(s, BeginEdit(k, id), FinishEdit(k));
      if id !in rows {
        return NotFound;
      }
      if rows[id].status == Sending {
        return Conflict;
      }
      rows := rows[id := Row(Pending, 0, now)];
      reply := Ok;
    }

    /** DeleteScheduledMessage, uninterrupted. */
    method DeleteScheduledMessage(id: RowId, ghost s: State, ghost k: Actor) returns (reply: Reply)
      requires s.rows == rows && PhaseOf(s, k) == Idle
      modifies this`rows
      ensures rows == Run(s, [BeginDelete(k, id), FinishDelete(k)]).rows
      ensures reply == NotFound <==> id !in old(rows)
      ensures reply == Conflict <==> id in old(rows) && old(rows)[id].status == Sending
      ensures reply == Ok || reply == NotFound || reply == Conflict
      ensures if reply == Ok then id !in rows else rows == old(rows)
      ensures OtherRowsKept(old(rows), rows, id)
    {
      RunTwo(s, BeginDelete(k, id), FinishDelete(k));
      if id !in rows {
        return NotFound;
      }
      if rows[id].status == Sending {
        return Conflict;
      }
      rows := rows - {id};
      reply := Ok;
    }
  }

  function SendSteps(k: Actor, origin: Origin, id: RowId, seen: nat, w: Weather): seq<Step> {
    if Attempt(w) == Sent then [Claim(k, id, origin, seen), Commit(k), Cleanup(k, w.deleteOk)]
    else [Claim(k, id, origin, seen), Fail(k, Attempt(w) == PermanentError), Settle(k, w.settleOk)]
  }

  lemma SendOutcome(s: State, k: Actor, origin: Origin, id: RowId, seen: nat, w: Weather)
    requires PhaseOf(s, k) == Idle
    ensures var t, rows := Run(s, SendSteps(k, origin, id, seen, w)), MarkSending(s.rows, id, s.now);
            PhaseOf(t, k) == Idle &&
            if !Claimable(s.rows, id) then t.rows == s.rows && t.sent == s.sent
            else if Attempt(w) == Sent then
              t.sent == s.sent + multiset{id} && t.rows == if w.deleteOk then rows - {id} else rows
            else
              t.sent == s.sent &&
              t.rows == if !w.settleOk then rows
                        else if GivesUp(origin, seen, Attempt(w) == PermanentError) then MarkFailed(rows, id, s.now)
                        else IncrementRetry(rows, id, s.now)
  {
    var ss := SendSteps(k, origin, id, seen, w);
    RunThree(s, ss[0], ss[1], ss[2]);
  }

  lemma StepsHandle(s: State, k: Actor, origin: Origin, id: RowId, seen: nat, w: Weather)
    requires PhaseOf(s, k) == Idle
    ensures var t := Run(s, SendSteps(k, origin, id, seen, w));
            Handled(s.rows, t.rows, id, w, origin == Worker && seen >= 2, s.now) &&
            t.sent == s.sent + if IsPending(s.rows, id) && Delivers(w) then multiset{id} else multiset{}
  {
    SendOutcome(s, k, origin, id, seen, w);
  }

  /** A message that was never tried goes back twice after a failure that may pass, and
      is given up after the third, whatever the clock says. */
  lemma ThirdFailureIsLast(s: State, k: Actor, id: RowId, w: Weather)
    requires PhaseOf(s, k) == Idle && id in s.rows && s.rows[id].status == Pending && s.rows[id].retries == 0
    requires !Delivers(w) && !Refuses(w) && w.settleOk
    ensures var s1 := Run(s, SendSteps(k, Worker, id, 0, w));
            var s2 := Run(s1, SendSteps(k, Worker, id, 1, w));
            var s3 := Run(s2, SendSteps(k, Worker, id, 2, w));
            id in s1.rows && s1.rows[id].status == Pending && s1.rows[id].retries == 1 &&
            id in s2.rows && s2.rows[id].status == Pending && s2.rows[id].retries == 2 &&
            id in s3.rows && s3.rows[id].status == Failed && s3.sent == s.sent
  {
    var s1 := Run(s, SendSteps(k, Worker, id, 0, w));
    var s2 := Run(s1, SendSteps(k, Worker, id, 1, w));
    SendOutcome(s, k, Worker, id, 0, w);
    SendOutcome(s1, k, Worker, id, 1, w);
    SendOutcome(s2, k, Worker, id, 2, w);
  }

  /** However long after the attempt its failure is stored, the row is dated then. */
  lemma SettleDatesTheRow(s: State, k: Actor)
    requires PhaseOf(s, k).Failing? && PhaseOf(s, k).id in s.rows
    ensures var p, t := PhaseOf(s, k), Next(s, Settle(k, true));
            var last := p.permanent || (p.origin == Worker && p.seen >= 2);
            PhaseOf(t, k) == Idle && OtherRowsKept(s.rows, t.rows, p.id) && p.id in t.rows &&
            t.rows[p.id] == if last then Row(Failed, s.rows[p.id].retries, s.now)
                            else Row(Pending, s.rows[p.id].retries + 1, s.now)
  {}

  /** Removing an attachment dates the row, at the time it read, and nothing else. */
  lemma StampDatesTheRow(s: State, id: RowId, at: Time)
    ensures var t := Next(s, Stamp(id, at));
            t == s.(rows := t.rows) && OtherRowsKept(s.rows, t.rows, id) && (id in t.rows <==> id in s.rows) &&
            (id in s.rows ==>
               t.rows[id] == Row(s.rows[id].status, s.rows[id].retries,
                                 if at <= s.now then at else s.rows[id].updatedAt))
  {}
}
