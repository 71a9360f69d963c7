/** Runs of scheduled sending with the worker's crash recovery in them
    (server/internal/scheduled/worker.go): conditions an operator can check under
    which nothing is sent twice, and what happens without each of them. */
module ScheduledRuns {
  import opened Common
  import opened Scheduled

  // ---------- orderly runs ----------

  predicate Busy(p: Phase) {
    p.Claimed? || p.Failing? || p.Committed?
  }

  /** Nobody has been at work for longer than the recovery waits. */
  predicate Prompt(s: State) {
    forall k :: k in s.phases && Busy(s.phases[k]) ==> s.now <= s.phases[k].since + STUCK_AFTER
  }

  /** The recovery runs while nobody is overdue, the delete after a send succeeds, no
      sender crashes between creating the message and that delete, an edit is written
      only to a row that is not being sent, and no time stamp is set back. */
  predicate Orderly(s: State, step: Step) {
    match step
    case ResetStuck => Prompt(s)
    case Cleanup(k, ok) => PhaseOf(s, k).Committed? ==> ok
    case Crash(k) => !PhaseOf(s, k).Committed?
    case FinishEdit(k) =>
      PhaseOf(s, k).Editing? && PhaseOf(s, k).id in s.rows ==> s.rows[PhaseOf(s, k).id].status != Sending
    case Stamp(id, at) => id in s.rows ==> s.rows[id].updatedAt <= at
    case _ => true
  }

  predicate AllOrderly(s: State, steps: seq<Step>)
    decreases |steps|
  {
    steps == [] || (Orderly(s, steps[0]) && AllOrderly(Next(s, steps[0]), steps[1..]))
  }

  /** The row of everybody at work was written no earlier than the claim. */
  predicate Timed(s: State) {
    forall k :: k in s.phases && Busy(s.phases[k]) ==>
      s.phases[k].since <= s.now &&
      (s.phases[k].id in s.rows ==> s.phases[k].since <= s.rows[s.phases[k].id].updatedAt)
  }

  predicate Finishing(p: Phase, id: RowId) {
    p.Committed? && p.id == id
  }

  /** Whoever sent a row that is still there is about to delete it. */
  ghost predicate Attended(s: State) {
    forall id :: id in s.rows && s.sent[id] > 0 ==> exists k :: k in s.phases && Finishing(s.phases[k], id)
  }

  ghost predicate Tended(s: State) {
    Inv(s) && Timed(s) && Attended(s)
  }

  lemma InitialTended()
    ensures Tended(INITIAL)
  {}

  lemma OrderlyIsClean(s: State, step: Step)
    requires Tended(s) && Orderly(s, step)
    ensures Clean(s, step)
  {
    if step == ResetStuck {
      forall id | id in s.rows && Locked(s, id)
        ensures !Stuck(s.rows[id], s.now)
      {
        var k :| k in s.phases && Busy(s.phases[k]) && s.phases[k].id == id;
      }
    }
  }

  /** A step never sets a row's time stamp back, or it sets it to the present. */
  lemma RowsKeepOrGetNow(s: State, step: Step, id: RowId)
    requires Orderly(s, step)
    ensures id in Next(s, step).rows ==>
              Next(s, step).rows[id].updatedAt == s.now ||
              (id in s.rows && Next(s, step).rows[id].updatedAt >= s.rows[id].updatedAt)
  {}

  /** An actor at work has just claimed, or was at work on the same row before. */
  lemma WorkGoesOn(s: State, step: Step, k: Actor)
    requires k in Next(s, step).phases && Busy(Next(s, step).phases[k])
    ensures var p := Next(s, step).phases[k];
            p.since == s.now ||
            (k in s.phases && Busy(s.phases[k]) && s.phases[k].id == p.id && s.phases[k].since == p.since)
  {}

  lemma TimedStep(s: State, step: Step)
    requires Timed(s) && Orderly(s, step)
    ensures Timed(Next(s, step))
  {
    var t := Next(s, step);
    assert s.now <= t.now;
    forall k | k in t.phases && Busy(t.phases[k])
      ensures t.phases[k].since <= t.now
      ensures t.phases[k].id in t.rows ==> t.phases[k].since <= t.rows[t.phases[k].id].updatedAt
    {
      WorkGoesOn(s, step, k);
      RowsKeepOrGetNow(s, step, t.phases[k].id);
      if k in s.phases ==> !Busy(s.phases[k]) {
        ClaimStamps(s, step, k);
      }
    }
  }

  /** Whoever starts work now works on a row written now. */
  lemma ClaimStamps(s: State, step: Step, k: Actor)
    requires k in Next(s, step).phases && Busy(Next(s, step).phases[k]) && (k in s.phases ==> !Busy(s.phases[k]))
    ensures var p, t := Next(s, step).phases[k], Next(s, step);
            p.since == s.now && p.id in t.rows && t.rows[p.id].updatedAt == s.now
  {}

  lemma KeepsFinishing(s: State, t: State, k: Actor, id: RowId)
    requires forall j :: j in s.phases && j != k ==> j in t.phases && t.phases[j] == s.phases[j]
    requires !Finishing(PhaseOf(s, k), id) && exists j :: j in s.phases && Finishing(s.phases[j], id)
    ensures exists j :: j in t.phases && Finishing(t.phases[j], id)
  {
    var j :| j in s.phases && Finishing(s.phases[j], id);
    assert j != k;
    assert j in t.phases && Finishing(t.phases[j], id);
  }

  /** Steps that send nothing: the rows sent so far are still attended to. */
  lemma QuietStepAttends(s: State, t: State, k: Actor)
    requires Attended(s) && t.sent == s.sent
    requires forall j :: j in s.phases && j != k ==> j in t.phases && t.phases[j] == s.phases[j]
    requires forall id :: id in t.rows && s.sent[id] > 0 ==> id in s.rows && !Finishing(PhaseOf(s, k), id)
    ensures Attended(t)
  {
    forall id | id in t.rows && t.sent[id] > 0
      ensures exists j :: j in t.phases && Finishing(t.phases[j], id)
    {
      KeepsFinishing(s, t, k, id);
    }
  }

  lemma CommitAttends(s: State, k: Actor)
    requires Attended(s)
    ensures Attended(Next(s, Commit(k)))
  {
    if PhaseOf(s, k).Claimed? {
      var t := Next(s, Commit(k));
      forall id | id in t.rows && t.sent[id] > 0
        ensures exists j :: j in t.phases && Finishing(t.phases[j], id)
      {
        if id == PhaseOf(s, k).id {
          assert Finishing(t.phases[k], id);
        } else {
          KeepsFinishing(s, t, k, id);
        }
      }
    }
  }

  /** Steps that move no actor. */
  lemma StillAttends(s: State, t: State)
    requires Attended(s) && t.sent == s.sent && t.phases == s.phases
    requires forall id :: id in t.rows && s.sent[id] > 0 ==> id in s.rows
    ensures Attended(t)
  {
    forall id | id in t.rows && t.sent[id] > 0
      ensures exists j :: j in t.phases && Finishing(t.phases[j], id)
    {
      var j :| j in s.phases && Finishing(s.phases[j], id);
      assert j in t.phases && Finishing(t.phases[j], id);
    }
  }

  /** A step of one actor that changes something and sends nothing: the actor was not
      about to delete a row that is left. */
  lemma ActorsStepIsQuiet(s: State, step: Step)
    requires Orderly(s, step) && Next(s, step) != s
    requires step.Claim? || step.Fail? || step.Cleanup? || step.Settle? || step.Crash? || step.BeginEdit? ||
             step.FinishEdit? || step.BeginDelete? || step.FinishDelete?
    ensures Next(s, step).sent == s.sent
    ensures forall j :: j in s.phases && j != step.k ==>
              j in Next(s, step).phases && Next(s, step).phases[j] == s.phases[j]
    ensures forall id :: id in Next(s, step).rows ==> id in s.rows && !Finishing(PhaseOf(s, step.k), id)
  {}

  lemma AttendedStep(s: State, step: Step)
    requires Inv(s) && Attended(s) && Orderly(s, step)
    ensures Attended(Next(s, step))
  {
    var t := Next(s, step);
    match step
    case Schedule =>
      assert !Locked(s, s.nextId);
      StillAttends(s, t);
    case Commit(k) => CommitAttends(s, k);
    case ResetStuck => StillAttends(s, t);
    case Stamp(_, _) => StillAttends(s, t);
    case Tick => StillAttends(s, t);
    case _ =>
      if t != s {
        ActorsStepIsQuiet(s, step);
        QuietStepAttends(s, t, step.k);
      }
  }

  lemma OrderlyKeepsTended(s: State, step: Step)
    requires Tended(s) && Orderly(s, step)
    ensures Tended(Next(s, step))
  {
    OrderlyIsClean(s, step);
    CleanStepKeepsInv(s, step);
    TimedStep(s, step);
    AttendedStep(s, step);
  }

  lemma {:induction false} OrderlyRunIsClean(s: State, steps: seq<Step>)
    requires Tended(s) && AllOrderly(s, steps)
    ensures AllClean(s, steps) && Tended(Run(s, steps))
    decreases |steps|
  {
    if steps == [] {
    } else {
      OrderlyIsClean(s, steps[0]);
      OrderlyKeepsTended(s, steps[0]);
      OrderlyRunIsClean(Next(s, steps[0]), steps[1..]);
    }
  }

  /** From the empty table, with any number of requests and workers, recoveries and
      edits interleaved: while the run is orderly, one scheduled message yields at most
      one chat message, and once sent its row is gone or still "sending". */
  lemma OrderlyRunIsSafe(steps: seq<Step>)
    requires AllOrderly(INITIAL, steps)
    ensures AllClean(INITIAL, steps) && Safe(Run(INITIAL, steps))
  {
    InitialTended();
    OrderlyRunIsClean(INITIAL, steps);
  }

  // ---------- each condition is needed ----------

  function Ticks(n: nat): seq<Step> {
    if n == 0 then [] else [Tick] + Ticks(n - 1)
  }

  lemma {:induction false} TicksPass(s: State, n: nat)
    ensures Run(s, Ticks(n)) == s.(now := s.now + n)
    decreases n
  {
    if n == 0 {
    } else {
      assert Ticks(n)[1..] == Ticks(n - 1);
      TicksPass(Next(s, Tick), n - 1);
    }
  }

  lemma {:induction false} RunConcat(s: State, a: seq<Step>, b: seq<Step>)
    ensures Run(s, a + b) == Run(Run(s, a), b)
    decreases |a|
  {
    if a == [] {
      assert a + b == b;
    } else {
      assert (a + b)[1..] == a[1..] + b;
      RunConcat(Next(s, a[0]), a[1..], b);
    }
  }

  /** Actor k sent one scheduled message at time 0; the row could not be deleted. */
  function NotCleaned(k: Actor, now: Time): State {
    State(map[0 := Row(Sending, 0, 0)], map[k := Idle], multiset{0}, 1, now)
  }

  lemma FailedCleanup(k: Actor)
    ensures Run(INITIAL, [Schedule, Claim(k, 0, Worker, 0), Commit(k), Cleanup(k, false)]) == NotCleaned(k, 0)
  {
    var scheduled := State(map[0 := Row(Pending, 0, 0)], map[], multiset{}, 1, 0);
    var claimed := State(map[0 := Row(Sending, 0, 0)], map[k := Claimed(0, Worker, 0, 0)], multiset{}, 1, 0);
    var steps := [Schedule, Claim(k, 0, Worker, 0), Commit(k), Cleanup(k, false)];
    assert Next(INITIAL, steps[0]) == scheduled;
    assert Next(scheduled, steps[1]) == claimed;
    assert Next(Next(claimed, steps[2]), steps[3]) == NotCleaned(k, 0);
    RunThree(scheduled, steps[1], steps[2], steps[3]);
    assert steps[1..] == [steps[1], steps[2], steps[3]];
  }

  lemma RecoverySendsAgain(k: Actor, j: Actor, now: Time)
    requires now > STUCK_AFTER
    ensures Run(NotCleaned(k, now), [ResetStuck, Claim(j, 0, Worker, 1), Commit(j)]).sent[0] == 2
  {
    var s := NotCleaned(k, now);
    assert Next(s, ResetStuck) == s.(rows := map[0 := Row(Pending, 1, now)]);
    RunThree(s, ResetStuck, Claim(j, 0, Worker, 1), Commit(j));
  }

  /** It happens: the delete after a successful send fails, more than five minutes
      pass, the worker's recovery puts the row back, and the message goes out a
      second time. */
  lemma FailedCleanupSendsTwice(k: Actor, wait: nat, j: Actor)
    requires wait > STUCK_AFTER
    ensures var before := [Schedule, Claim(k, 0, Worker, 0), Commit(k), Cleanup(k, false)];
            var after := [ResetStuck, Claim(j, 0, Worker, 1), Commit(j)];
            Run(Run(Run(INITIAL, before), Ticks(wait)), after).sent[0] == 2
  {
    FailedCleanup(k);
    TicksPass(NotCleaned(k, 0), wait);
    RecoverySendsAgain(k, j, wait);
  }

  /** So does a crash between the send and the delete. */
  lemma CrashAfterCommitSendsTwice(k: Actor, wait: nat, j: Actor)
    requires wait > STUCK_AFTER
    ensures var before := [Schedule, Claim(k, 0, Worker, 0), Commit(k), Crash(k)];
            var after := [ResetStuck, Claim(j, 0, Worker, 1), Commit(j)];
            Run(Run(Run(INITIAL, before), Ticks(wait)), after).sent[0] == 2
  {
    var before := [Schedule, Claim(k, 0, Worker, 0), Commit(k), Crash(k)];
    ClaimFirst(k);
    assert before == [Schedule, Claim(k, 0, Worker, 0)] + [Commit(k), Crash(k)];
    RunConcat(INITIAL, [Schedule, Claim(k, 0, Worker, 0)], [Commit(k), Crash(k)]);
    RunTwo(AtWork(k, 0), Commit(k), Crash(k));
    assert Next(Next(AtWork(k, 0), Commit(k)), Crash(k)) == NotCleaned(k, 0);
    TicksPass(NotCleaned(k, 0), wait);
    RecoverySendsAgain(k, j, wait);
  }

  /** One message was scheduled and claimed by k, at time 0. */
  function AtWork(k: Actor, now: Time): State {
    State(map[0 := Row(Sending, 0, 0)], map[k := Claimed(0, Worker, 0, 0)], multiset{}, 1, now)
  }

  lemma ClaimFirst(k: Actor)
    ensures Run(INITIAL, [Schedule, Claim(k, 0, Worker, 0)]) == AtWork(k, 0)
  {
    RunTwo(INITIAL, Schedule, Claim(k, 0, Worker, 0));
    var scheduled := State(map[0 := Row(Pending, 0, 0)], map[], multiset{}, 1, 0);
    assert Next(INITIAL, Schedule) == scheduled;
    assert Next(scheduled, Claim(k, 0, Worker, 0)) == AtWork(k, 0);
  }

  /** Both k and j have claimed the message. */
  function ClaimedTwice(k: Actor, since: Time, j: Actor, now: Time): State {
    State(map[0 := Row(Sending, 1, now)],
          map[k := Claimed(0, Worker, 0, since), j := Claimed(0, Worker, 1, now)], multiset{}, 1, now)
  }

  lemma BothCommit(k: Actor, since: Time, j: Actor, now: Time)
    requires j != k
    ensures Run(ClaimedTwice(k, since, j, now), [Commit(k), Commit(j)]).sent[0] == 2
  {
    RunTwo(ClaimedTwice(k, since, j, now), Commit(k), Commit(j));
  }

  lemma RecoveryReleases(k: Actor, now: Time, j: Actor)
    requires now > STUCK_AFTER && j != k
    ensures Run(AtWork(k, now), [ResetStuck, Claim(j, 0, Worker, 1)]) == ClaimedTwice(k, 0, j, now)
  {
    var s := AtWork(k, now);
    var released := s.(rows := map[0 := Row(Pending, 1, now)]);
    RunTwo(s, ResetStuck, Claim(j, 0, Worker, 1));
    assert Next(s, ResetStuck) == released;
    assert Next(released, Claim(j, 0, Worker, 1)) == ClaimedTwice(k, 0, j, now);
  }

  lemma WorkTakesTime(k: Actor, wait: nat)
    ensures Run(AtWork(k, 0), Ticks(wait)) == AtWork(k, wait)
  {
    TicksPass(AtWork(k, 0), wait);
  }

  /** So does a send that takes longer than the recovery waits: its row is put back and
      claimed by another worker before it commits. */
  lemma SlowSendSendsTwice(k: Actor, wait: nat, j: Actor)
    requires wait > STUCK_AFTER && j != k
    ensures var before := [Schedule, Claim(k, 0, Worker, 0)];
            var waited := Run(Run(INITIAL, before), Ticks(wait));
            Run(Run(waited, [ResetStuck, Claim(j, 0, Worker, 1)]), [Commit(k), Commit(j)]).sent[0] == 2
  {
    ClaimFirst(k);
    WorkTakesTime(k, wait);
    RecoveryReleases(k, wait, j);
    BothCommit(k, 0, j, wait);
  }

  lemma EditDuringSend(e: Actor, k: Actor)
    requires e != k
    ensures Run(Run(INITIAL, [Schedule, BeginEdit(e, 0)]), [Claim(k, 0, Worker, 0), FinishEdit(e)])
         == State(map[0 := Row(Pending, 0, 0)], map[e := Idle, k := Claimed(0, Worker, 0, 0)], multiset{}, 1, 0)
  {
    var scheduled := State(map[0 := Row(Pending, 0, 0)], map[], multiset{}, 1, 0);
    var editing := scheduled.(phases := map[e := Editing(0)]);
    var claimed := State(map[0 := Row(Sending, 0, 0)], map[e := Editing(0), k := Claimed(0, Worker, 0, 0)],
                         multiset{}, 1, 0);
    RunTwo(INITIAL, Schedule, BeginEdit(e, 0));
    assert Next(INITIAL, Schedule) == scheduled && Next(scheduled, BeginEdit(e, 0)) == editing;
    RunTwo(editing, Claim(k, 0, Worker, 0), FinishEdit(e));
    assert Next(editing, Claim(k, 0, Worker, 0)) == claimed;
  }

  /** And so does an edit whose status check is out of date when it is written. */
  lemma StaleEditSendsTwice(e: Actor, k: Actor, j: Actor)
    requires e != k && k != j && e != j
    ensures var edited := Run(Run(INITIAL, [Schedule, BeginEdit(e, 0)]), [Claim(k, 0, Worker, 0), FinishEdit(e)]);
            Run(edited, [Claim(j, 0, SendNow, 0), Commit(k), Commit(j)]).sent[0] == 2
  {
    var edited := State(map[0 := Row(Pending, 0, 0)], map[e := Idle, k := Claimed(0, Worker, 0, 0)], multiset{}, 1, 0);
    EditDuringSend(e, k);
    RunThree(edited, Claim(j, 0, SendNow, 0), Commit(k), Commit(j));
  }

  /** One message, claimed by k just now. */
  function JustClaimed(k: Actor, now: Time): State {
    State(map[0 := Row(Sending, 0, now)], map[k := Claimed(0, Worker, 0, now)], multiset{}, 1, now)
  }

  lemma StampSetsBack(k: Actor, now: Time)
    requires now > STUCK_AFTER
    ensures Next(Next(JustClaimed(k, now), Stamp(0, 0)), ResetStuck)
         == JustClaimed(k, now).(rows := map[0 := Row(Pending, 1, now)])
  {
    assert Next(JustClaimed(k, now), Stamp(0, 0)) == JustClaimed(k, now).(rows := map[0 := Row(Sending, 0, 0)]);
  }

  lemma StampReleases(k: Actor, now: Time, j: Actor)
    requires now > STUCK_AFTER && j != k
    ensures Run(JustClaimed(k, now), [Stamp(0, 0), ResetStuck, Claim(j, 0, Worker, 1)]) == ClaimedTwice(k, now, j, now)
  {
    var claimed := JustClaimed(k, now);
    var released := claimed.(rows := map[0 := Row(Pending, 1, now)]);
    RunThree(claimed, Stamp(0, 0), ResetStuck, Claim(j, 0, Worker, 1));
    StampSetsBack(k, now);
    assert Next(released, Claim(j, 0, Worker, 1)) == ClaimedTwice(k, now, j, now);
  }

  lemma ClaimLate(k: Actor, wait: nat)
    ensures Next(Run(Next(INITIAL, Schedule), Ticks(wait)), Claim(k, 0, Worker, 0))
         == JustClaimed(k, wait)
  {
    TicksPass(Next(INITIAL, Schedule), wait);
  }

  /** And so does removing an attachment that writes a time from before the claim: the
      recovery then takes a send that has just begun for one that is stuck. */
  lemma StaleStampSendsTwice(k: Actor, wait: nat, j: Actor)
    requires wait > STUCK_AFTER && j != k
    ensures var claimed := Next(Run(Next(INITIAL, Schedule), Ticks(wait)), Claim(k, 0, Worker, 0));
            Run(Run(claimed, [Stamp(0, 0), ResetStuck, Claim(j, 0, Worker, 1)]), [Commit(k), Commit(j)]).sent[0] == 2
  {
    ClaimLate(k, wait);
    StampReleases(k, wait, j);
    BothCommit(k, wait, j, wait);
  }
}
