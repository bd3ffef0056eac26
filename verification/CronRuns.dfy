/** What every poll, save and delete of a single worker keeps, and what a run of them guarantees. */
module CronRuns {
  import opened Options
  import opened SortedSets
  import opened CronQueue

  /** Saving a job is reading it back, and nothing else changes. */
  lemma SaveKeepsAgreement(s: Store, j: Job)
    requires Agrees(s)
    ensures Agrees(Saved(s, j))
    ensures j.id in Saved(s, j).jobs && Saved(s, j).jobs[j.id] == j
    ensures forall k :: k != j.id ==> SameAt(Saved(s, j), s, k)
  {
    forall id: Member
      ensures AgreesOn(Saved(s, j), id)
    {
      assert AgreesOn(s, id);
    }
  }

  lemma DeleteKeepsAgreement(s: Store, id: Member)
    requires Agrees(s)
    ensures Agrees(Deleted(s, id))
    ensures id !in Deleted(s, id).jobs && forall k :: k != id ==> SameAt(Deleted(s, id), s, k)
  {
    forall k: Member
      ensures AgreesOn(Deleted(s, id), k)
    {
      assert AgreesOn(s, k);
    }
  }

  // ---- One poll.

  /** The stored jobs named by `ids`, in order. */
  function Blobs(s: Store, ids: seq<Member>): seq<Job>
    requires forall id :: id in ids ==> id in s.jobs
  {
    seq(|ids|, i requires 0 <= i < |ids| => assert ids[i] in ids; s.jobs[ids[i]])
  }

  ghost predicate Distinct(ids: seq<Member>) {
    forall i, j :: 0 <= i < j < |ids| ==> ids[i] != ids[j]
  }

  /** In an agreeing store a poll claims exactly the stored jobs of the ids it takes. */
  lemma {:induction false} RunnableAreBlobs(s: Store, ids: seq<Member>)
    requires forall id :: id in ids ==> id in s.jobs && s.jobs[id].enabled
    ensures Runnable(s.jobs, ids) == Blobs(s, ids)
  {
    if ids != [] {
      var front := ids[..|ids| - 1];
      assert forall id :: id in front ==> id in ids;
      RunnableAreBlobs(s, front);
      assert ids[|ids| - 1] in ids;
    }
  }

  /** Midway through a poll: the jobs from the i-th on are claimed and still as stored, every other job
      agrees with the queue. */
  ghost predicate Midway(s: Store, ids: seq<Member>, jobs: seq<Job>, i: nat) {
    && |ids| == |jobs| && i <= |ids| && Distinct(ids)
    && (forall k :: i <= k < |ids| ==> ids[k] in s.jobs && s.jobs[ids[k]] == jobs[k] && jobs[k].id == ids[k]
                                       && Scheduled(jobs[k]) && ids[k] !in s.queue)
    && (forall id: Member :: id !in ids[i..] ==> AgreesOn(s, id))
  }

  lemma ClaimLeavesMidway(s: Store, now: int, limit: nat)
    requires Agrees(s)
    ensures var ids := RangeByScore(s.queue, now, limit);
            && (forall id :: id in ids ==> id in s.queue)
            && PopDue(s, now, limit).1 == Runnable(s.jobs, ids)
            && |Runnable(s.jobs, ids)| == |ids|
            && Midway(PopDue(s, now, limit).0, ids, PopDue(s, now, limit).1, 0)
  {
    var ids := RangeByScore(s.queue, now, limit);
    RangeByScoreIsDue(s.queue, now, limit);
    hide RangeByScore, Ranked;
    forall id | id in ids
      ensures id in s.queue && id in s.jobs && s.jobs[id].enabled && Scheduled(s.jobs[id]) && s.jobs[id].id == id
    {
      assert AgreesOn(s, id);
    }
    RunnableAreBlobs(s, ids);
    var s1 := PopDue(s, now, limit).0;
    assert ids[0..] == ids;
    forall id: Member | id !in ids
      ensures AgreesOn(s1, id)
    {
      assert AgreesOn(s, id);
    }
    forall k | 0 <= k < |ids|
      ensures ids[k] in ids && ids[k] !in s1.queue
    {
    }
  }

  /** A poll claims exactly the blobs of the ids it takes that are stored and enabled, whatever else the store
      holds. */
  lemma {:induction false} ClaimedExactly(jobs: map<Member, Job>, ids: seq<Member>, j: Job)
    ensures j in Runnable(jobs, ids) <==> exists id :: id in ids && id in jobs && jobs[id] == j && j.enabled
  {
    if ids != [] {
      var front, last := ids[..|ids| - 1], ids[|ids| - 1];
      assert ids == front + [last];
      ClaimedExactly(jobs, front, j);
    }
  }

  /** A one-shot is next due at its own time, unless that has passed, and a cron job at the first firing of its
      expression; it raises without a readable time or a usable expression.  Only a cron job needs the next
      time to be rescheduled. */
  lemma NextRunExactly(lib: TimeLib, j: Job, now: int)
    ensures var s := j.schedule;
            var at := if s.atIso == None || s.atIso == Some("") then None else lib.parseIso(s.atIso.value, s.tz);
            var next := if s.expr == None || s.expr == Some("") then None else lib.cronNext(s.expr.value, s.tz, now);
            && (NextRunMs(lib, s, now).Raises? <==> if s.kind == Cron then next.None? else at.None?)
            && (forall ms ::
                  NextRunMs(lib, s, now) == RunAt(ms)
                  <==> if s.kind == Cron then next == Some(ms) else at == Some(ms) && ms >= now)
            && (CanReschedule(lib, j, now) <==> s.kind == At || next.Some?)
  {
  }

  predicate StepGoesThrough(lib: TimeLib, p: Poll, jobs: seq<Job>, i: nat)
    requires i < |jobs|
  {
    CanReschedule(lib, jobs[i], p.finish(i).requeued)
  }

  /** Every job claimed from the i-th on can be rescheduled. */
  ghost predicate AllGoThrough(lib: TimeLib, p: Poll, jobs: seq<Job>, i: nat) {
    forall k :: i <= k < |jobs| ==> StepGoesThrough(lib, p, jobs, k)
  }

  lemma RescheduleMovesOn(lib: TimeLib, p: Poll, s: Store, ids: seq<Member>, jobs: seq<Job>, i: nat)
    requires i < |jobs| && Midway(s, ids, jobs, i) && StepGoesThrough(lib, p, jobs, i)
    ensures var j := Recorded(jobs[i], p.outcome(i), p.finish(i));
            Midway(Rescheduled(lib, s, j, p.finish(i).requeued), ids, jobs, i + 1)
  {
    var j := Recorded(jobs[i], p.outcome(i), p.finish(i));
    var s' := Rescheduled(lib, s, j, p.finish(i).requeued);
    assert forall id :: id != j.id ==> (id in s'.jobs <==> id in s.jobs) && (id in s'.queue <==> id in s.queue);
    forall id: Member | id !in ids[i + 1..]
      ensures AgreesOn(s', id)
    {
      if id != ids[i] {
        assert id !in ids[i..] by { assert ids[i..] == [ids[i]] + ids[i + 1..]; }
        assert AgreesOn(s, id);
      }
    }
  }

  /** From midway, the rest of the poll leaves blobs and queue in agreement exactly when every remaining
      job can be rescheduled; otherwise the first that cannot is left stored, enabled and off the queue. */
  lemma {:induction false} RunFromAgrees(lib: TimeLib, p: Poll, s: Store, ids: seq<Member>, jobs: seq<Job>, i: nat)
    requires Midway(s, ids, jobs, i)
    ensures RunFrom(lib, p, s, jobs, i).1 <==> AllGoThrough(lib, p, jobs, i)
    ensures Agrees(RunFrom(lib, p, s, jobs, i).0) <==> AllGoThrough(lib, p, jobs, i)
    decreases |jobs| - i
  {
    if i < |jobs| {
      var j := Recorded(jobs[i], p.outcome(i), p.finish(i));
      if StepGoesThrough(lib, p, jobs, i) {
        RescheduleMovesOn(lib, p, s, ids, jobs, i);
        RunFromAgrees(lib, p, Rescheduled(lib, s, j, p.finish(i).requeued), ids, jobs, i + 1);
      } else {
        assert !AgreesOn(s, ids[i]);
      }
    } else {
      assert ids[i..] == [];
    }
  }

  ghost predicate EveryClaimGoesThrough(lib: TimeLib, s: Store, p: Poll) {
    AllGoThrough(lib, p, PopDue(s, p.now, p.limit).1, 0)
  }

  /** A poll keeps blobs and queue in agreement exactly when every job it claims can be rescheduled: a cron
      job whose expression does not work drops out of the queue with the rest of its batch. */
  lemma PollKeepsAgreement(lib: TimeLib, s: Store, p: Poll)
    requires Agrees(s)
    ensures Agrees(Polled(lib, s, p).0) <==> EveryClaimGoesThrough(lib, s, p)
  {
    ClaimLeavesMidway(s, p.now, p.limit);
    var (s1, jobs) := PopDue(s, p.now, p.limit);
    RunFromAgrees(lib, p, s1, RangeByScore(s.queue, p.now, p.limit), jobs, 0);
  }

  // ---- What becomes of the claimed jobs.

  /** The queue entry a claimed job is left with: a one-shot is deleted or disabled, a cron job is queued again
      for the first firing of its expression after it was rescheduled. */
  predicate Settled(lib: TimeLib, s: Store, j: Job, now: int) {
    if OneShot(j.schedule) && j.deleteAfterRun then j.id !in s.jobs && j.id !in s.queue
    else if OneShot(j.schedule) then
      j.id in s.jobs && !s.jobs[j.id].enabled && s.jobs[j.id].nextRun.None? && j.id !in s.queue
    else
      && j.id in s.jobs && s.jobs[j.id].enabled && j.id in s.queue && s.queue[j.id] > now
      && j.schedule.expr.Some? && j.schedule.expr.value != ""
      && lib.cronNext(j.schedule.expr.value, j.schedule.tz, now) == Some(s.queue[j.id])
  }

  /** What a run leaves written about itself; everything a client set stays. */
  predicate Reports(before: Job, after: Job, o: Outcome, f: Finish) {
    && after.id == before.id && after.schedule == before.schedule && after.payload == before.payload
    && after.deleteAfterRun == before.deleteAfterRun
    && after.lastRun == Some(f.at) && after.lastDuration == Some(f.duration)
    && match o
       case Raised(text) => after.lastStatus == Some("error") && after.lastError == Some(text)
       case Done(errors, status) =>
         if errors == [] then after.lastStatus == Some("ok") && after.lastError == None
         else
           && after.lastStatus == Some(status) && after.lastError.Some?
           && after.lastError.value <= JoinErrors(errors)
           && (after.lastError.value == JoinErrors(errors) || |after.lastError.value| == 500)
           && |after.lastError.value| <= 500
  }

  /** Joining error texts puts "; " between them. */
  lemma {:induction false} JoinErrorsAppend(a: seq<string>, b: seq<string>)
    requires a != [] && b != []
    ensures JoinErrors(a + b) == JoinErrors(a) + "; " + JoinErrors(b)
    ensures |a| == 1 ==> JoinErrors(a) == a[0]
  {
    assert (a + b)[1..] == a[1..] + b;
    if |a| > 1 {
      JoinErrorsAppend(a[1..], b);
      assert a[0] + "; " + (JoinErrors(a[1..]) + "; " + JoinErrors(b))
          == (a[0] + "; " + JoinErrors(a[1..])) + "; " + JoinErrors(b);
    } else {
      assert a[1..] + b == b;
    }
  }

  predicate SameAt(a: Store, b: Store, id: Member) {
    && (id in a.jobs <==> id in b.jobs) && (id in a.jobs ==> a.jobs[id] == b.jobs[id])
    && (id in a.queue <==> id in b.queue) && (id in a.queue ==> a.queue[id] == b.queue[id])
  }

  lemma RescheduleSettles(lib: TimeLib, s: Store, claimed: Job, o: Outcome, f: Finish)
    requires MovesForward(lib) && CanReschedule(lib, claimed, f.requeued) && claimed.enabled
    ensures var s' := Rescheduled(lib, s, Recorded(claimed, o, f), f.requeued);
            && Settled(lib, s', claimed, f.requeued)
            && (claimed.id in s'.jobs ==> Reports(claimed, s'.jobs[claimed.id], o, f))
            && forall id :: id != claimed.id ==> SameAt(s', s, id)
  {
    hide JoinErrors;
  }

  /** How one claimed job is left, in queue and blob. */
  predicate LeftBehind(lib: TimeLib, s: Store, claimed: Job, o: Outcome, f: Finish) {
    && Settled(lib, s, claimed, f.requeued)
    && (claimed.id in s.jobs ==> Reports(claimed, s.jobs[claimed.id], o, f))
  }

  lemma {:induction false} RunFromTouchesOnlyClaimed(lib: TimeLib, p: Poll, s: Store, jobs: seq<Job>, i: nat,
                                                     id: Member)
    requires i <= |jobs| && forall k :: i <= k < |jobs| ==> jobs[k].id != id
    ensures SameAt(RunFrom(lib, p, s, jobs, i).0, s, id)
    decreases |jobs| - i
  {
    if i < |jobs| {
      var j := Recorded(jobs[i], p.outcome(i), p.finish(i));
      if CanReschedule(lib, j, p.finish(i).requeued) {
        RunFromTouchesOnlyClaimed(lib, p, Rescheduled(lib, s, j, p.finish(i).requeued), jobs, i + 1, id);
      }
    }
  }

  lemma {:induction false} RunFromSettles(lib: TimeLib, p: Poll, s: Store, ids: seq<Member>, jobs: seq<Job>, i: nat,
                                          k: nat)
    requires MovesForward(lib) && Midway(s, ids, jobs, i) && AllGoThrough(lib, p, jobs, i) && i <= k < |jobs|
    ensures LeftBehind(lib, RunFrom(lib, p, s, jobs, i).0, jobs[k], p.outcome(k), p.finish(k))
    decreases |jobs| - i
  {
    assert StepGoesThrough(lib, p, jobs, i);
    var s' := Rescheduled(lib, s, Recorded(jobs[i], p.outcome(i), p.finish(i)), p.finish(i).requeued);
    RescheduleMovesOn(lib, p, s, ids, jobs, i);
    if k == i {
      RescheduleSettles(lib, s, jobs[i], p.outcome(i), p.finish(i));
      RunFromTouchesOnlyClaimed(lib, p, s', jobs, i + 1, jobs[i].id);
    } else {
      RunFromSettles(lib, p, s', ids, jobs, i + 1, k);
    }
  }

  /** After a poll every claimed job is settled and every other job is as it was. */
  lemma PollSettlesClaims(lib: TimeLib, s: Store, p: Poll)
    requires MovesForward(lib) && Agrees(s) && EveryClaimGoesThrough(lib, s, p)
    ensures var jobs := PopDue(s, p.now, p.limit).1;
            var s' := Polled(lib, s, p).0;
            && (forall k :: 0 <= k < |jobs| ==> LeftBehind(lib, s', jobs[k], p.outcome(k), p.finish(k)))
            && (forall id: Member :: id !in RangeByScore(s.queue, p.now, p.limit) ==> SameAt(s', s, id))
  {
    ClaimLeavesMidway(s, p.now, p.limit);
    var (s1, jobs) := PopDue(s, p.now, p.limit);
    var s' := Polled(lib, s, p).0;
    var ids := RangeByScore(s.queue, p.now, p.limit);
    hide RangeByScore;
    forall k | 0 <= k < |jobs|
      ensures LeftBehind(lib, s', jobs[k], p.outcome(k), p.finish(k))
    {
      RunFromSettles(lib, p, s1, ids, jobs, 0, k);
    }
    forall id: Member | id !in ids
      ensures SameAt(s', s, id)
    {
      assert forall k :: 0 <= k < |jobs| ==> jobs[k].id == ids[k] && ids[k] in ids;
      RunFromTouchesOnlyClaimed(lib, p, s1, jobs, 0, id);
    }
  }

  function SetOf(ids: seq<Member>): set<Member> {
    set id | id in ids
  }

  lemma {:induction false} DistinctCount(ids: seq<Member>)
    requires Distinct(ids)
    ensures |SetOf(ids)| == |ids|
  {
    if ids != [] {
      var front, last := ids[..|ids| - 1], ids[|ids| - 1];
      DistinctCount(front);
      assert ids == front + [last] && last !in front;
      assert SetOf(ids) == SetOf(front) + {last};
    }
  }

  lemma ClaimsLeaveDue(lib: TimeLib, s: Store, p: Poll, id: Member)
    requires MovesForward(lib) && Agrees(s) && EveryClaimGoesThrough(lib, s, p)
    requires forall i: nat :: p.now <= p.finish(i).requeued
    ensures id in Due(Polled(lib, s, p).0.queue, p.now)
       <==> id in Due(s.queue, p.now) && id !in RangeByScore(s.queue, p.now, p.limit)
  {
    var ids := RangeByScore(s.queue, p.now, p.limit);
    var s', jobs := Polled(lib, s, p).0, PopDue(s, p.now, p.limit).1;
    PollSettlesClaims(lib, s, p);
    if id in ids {
      ClaimLeavesMidway(s, p.now, p.limit);
      hide RangeByScore, Polled, PopDue;
      var k :| 0 <= k < |ids| && ids[k] == id;
      assert jobs[k].id == id && LeftBehind(lib, s', jobs[k], p.outcome(k), p.finish(k));
    } else {
      hide RangeByScore, Polled, PopDue;
      assert SameAt(s', s, id);
    }
  }

  /** Each poll takes min(limit, due) entries off the due part of the queue: nothing it requeues is due. */
  lemma PollShrinksDue(lib: TimeLib, s: Store, p: Poll)
    requires MovesForward(lib) && Agrees(s) && EveryClaimGoesThrough(lib, s, p)
    requires forall i: nat :: p.now <= p.finish(i).requeued
    ensures |Due(Polled(lib, s, p).0.queue, p.now)|
         == |Due(s.queue, p.now)| - (if |Due(s.queue, p.now)| <= p.limit then |Due(s.queue, p.now)| else p.limit)
  {
    var ids := RangeByScore(s.queue, p.now, p.limit);
    var before, after := Due(s.queue, p.now), Due(Polled(lib, s, p).0.queue, p.now);
    RangeByScoreIsDue(s.queue, p.now, p.limit);
    hide RangeByScore, Due, Polled, EveryClaimGoesThrough, Agrees, MovesForward;
    DistinctCount(ids);
    forall id: Member
      ensures id in after <==> id in before && id !in ids
    {
      ClaimsLeaveDue(lib, s, p, id);
    }
    assert after.Keys == before.Keys - SetOf(ids);
    assert SetOf(ids) <= before.Keys;
  }

  // ---- Runs of one worker.

  datatype Op = SaveOp(job: Job) | DeleteOp(id: Member) | PollOp(poll: Poll)

  function Apply(lib: TimeLib, s: Store, op: Op): Store {
    match op
    case SaveOp(j) => Saved(s, j)
    case DeleteOp(id) => Deleted(s, id)
    case PollOp(p) => Polled(lib, s, p).0
  }

  function After(lib: TimeLib, s: Store, ops: seq<Op>): Store
    decreases |ops|
  {
    if ops == [] then s else After(lib, Apply(lib, s, ops[0]), ops[1..])
  }

  ghost predicate PollsGoThrough(lib: TimeLib, s: Store, ops: seq<Op>)
    decreases |ops|
  {
    ops != [] ==>
      && (ops[0].PollOp? ==> EveryClaimGoesThrough(lib, s, ops[0].poll))
      && PollsGoThrough(lib, Apply(lib, s, ops[0]), ops[1..])
  }

  const EMPTY := Store(map[], map[])

  /** Over any run of saves, deletes and polls without a failing reschedule, a job is queued, at its own
      next run time, exactly when it is stored, enabled and scheduled. */
  lemma {:induction false} RunKeepsAgreement(lib: TimeLib, s: Store, ops: seq<Op>)
    requires Agrees(s) && PollsGoThrough(lib, s, ops)
    ensures Agrees(After(lib, s, ops))
    decreases |ops|
  {
    if ops != [] {
      match ops[0] {
        case SaveOp(j) => SaveKeepsAgreement(s, j);
        case DeleteOp(id) => DeleteKeepsAgreement(s, id);
        case PollOp(p) => PollKeepsAgreement(lib, s, p);
      }
      RunKeepsAgreement(lib, Apply(lib, s, ops[0]), ops[1..]);
    }
  }

  // ---- A one-shot job runs at most once per save.

  /** The jobs a poll executes: those before the first that cannot be rescheduled, and that one. */
  function Executed(lib: TimeLib, p: Poll, jobs: seq<Job>, i: nat): seq<Job>
    requires i <= |jobs|
    decreases |jobs| - i
  {
    if i == |jobs| then []
    else [jobs[i]] + if CanReschedule(lib, jobs[i], p.finish(i).requeued) then Executed(lib, p, jobs, i + 1) else []
  }

  function CountOf(jobs: seq<Job>, id: Member): nat {
    if jobs == [] then 0 else (if jobs[0].id == id then 1 else 0) + CountOf(jobs[1..], id)
  }

  function RunsIn(lib: TimeLib, s: Store, op: Op, id: Member): nat {
    if op.PollOp? then CountOf(Executed(lib, op.poll, PopDue(s, op.poll.now, op.poll.limit).1, 0), id) else 0
  }

  function Runs(lib: TimeLib, s: Store, ops: seq<Op>, id: Member): nat
    decreases |ops|
  {
    if ops == [] then 0 else RunsIn(lib, s, ops[0], id) + Runs(lib, Apply(lib, s, ops[0]), ops[1..], id)
  }

  predicate SavesJob(op: Op, id: Member) {
    op.SaveOp? && op.job.id == id
  }

  function Saves(ops: seq<Op>, id: Member): nat {
    if ops == [] then 0 else (if SavesJob(ops[0], id) then 1 else 0) + Saves(ops[1..], id)
  }

  /** Blobs are stored under their own id, and job `id`, if stored, is a one-shot. */
  ghost predicate OneShotStore(s: Store, id: Member) {
    && (forall k :: k in s.jobs ==> s.jobs[k].id == k)
    && (id in s.jobs ==> OneShot(s.jobs[id].schedule))
  }

  lemma {:induction false} NotClaimedNotCounted(jobs: seq<Job>, id: Member)
    requires forall k :: 0 <= k < |jobs| ==> jobs[k].id != id
    ensures CountOf(jobs, id) == 0
  {
    if jobs != [] {
      NotClaimedNotCounted(jobs[1..], id);
    }
  }

  lemma {:induction false} CountOfAppend(a: seq<Job>, j: Job, id: Member)
    ensures CountOf(a + [j], id) == CountOf(a, id) + if j.id == id then 1 else 0
  {
    if a != [] {
      assert (a + [j])[1..] == a[1..] + [j];
      CountOfAppend(a[1..], j, id);
    }
  }

  /** Claiming distinct ids yields job `id` once, if it was among them and is stored and enabled. */
  lemma {:induction false} ClaimedOnce(s: Store, ids: seq<Member>, id: Member)
    requires Distinct(ids) && Keyed(s)
    ensures CountOf(Runnable(s.jobs, ids), id) == if id in ids && id in s.jobs && s.jobs[id].enabled then 1 else 0
    ensures forall k :: 0 <= k < |Runnable(s.jobs, ids)| ==>
              var j := Runnable(s.jobs, ids)[k]; j.id in ids && j.id in s.jobs && s.jobs[j.id] == j
  {
    if ids != [] {
      var front, last := ids[..|ids| - 1], ids[|ids| - 1];
      assert last !in front;
      assert ids == front + [last];
      ClaimedOnce(s, front, id);
      if last in s.jobs && s.jobs[last].enabled {
        CountOfAppend(Runnable(s.jobs, front), s.jobs[last], id);
      } else {
        assert Runnable(s.jobs, ids) == Runnable(s.jobs, front);
      }
    }
  }

  lemma {:induction false} ExecutedCount(lib: TimeLib, p: Poll, jobs: seq<Job>, i: nat, id: Member)
    requires i <= |jobs|
    ensures CountOf(Executed(lib, p, jobs, i), id) <= CountOf(jobs[i..], id)
    ensures AllGoThrough(lib, p, jobs, i) ==> CountOf(Executed(lib, p, jobs, i), id) == CountOf(jobs[i..], id)
    decreases |jobs| - i
  {
    if i < |jobs| {
      ExecutedCount(lib, p, jobs, i + 1, id);
      assert AllGoThrough(lib, p, jobs, i) ==> StepGoesThrough(lib, p, jobs, i);
      assert jobs[i..][1..] == jobs[i + 1..];
      assert Executed(lib, p, jobs, i)[1..]
          == if CanReschedule(lib, jobs[i], p.finish(i).requeued) then Executed(lib, p, jobs, i + 1) else [];
    }
  }

  /** Rescheduling never queues a one-shot. */
  lemma {:induction false} RunFromKeepsOneShot(lib: TimeLib, p: Poll, s: Store, jobs: seq<Job>, i: nat, id: Member)
    requires i <= |jobs| && OneShotStore(s, id)
    requires forall k :: i <= k < |jobs| && jobs[k].id == id ==> OneShot(jobs[k].schedule)
    ensures var s' := RunFrom(lib, p, s, jobs, i).0;
            OneShotStore(s', id) && (id in s'.queue ==> id in s.queue)
    decreases |jobs| - i
  {
    if i < |jobs| {
      var j := Recorded(jobs[i], p.outcome(i), p.finish(i));
      if CanReschedule(lib, j, p.finish(i).requeued) {
        RunFromKeepsOneShot(lib, p, Rescheduled(lib, s, j, p.finish(i).requeued), jobs, i + 1, id);
      }
    }
  }

  /** A poll that goes through runs a job once if it takes its id and the job is stored and enabled, and
      otherwise not at all. */
  lemma PollRunsExactly(lib: TimeLib, s: Store, p: Poll, id: Member)
    requires Keyed(s) && EveryClaimGoesThrough(lib, s, p)
    ensures RunsIn(lib, s, PollOp(p), id)
         == if id in RangeByScore(s.queue, p.now, p.limit) && id in s.jobs && s.jobs[id].enabled then 1 else 0
  {
    var ids, jobs := RangeByScore(s.queue, p.now, p.limit), PopDue(s, p.now, p.limit).1;
    CandidatesApart(s.queue, p.now, p.limit);
    ClaimedOnce(s, ids, id);
    ExecutedCount(lib, p, jobs, 0, id);
    assert jobs[0..] == jobs;
  }

  lemma PollRunsQueuedOnce(lib: TimeLib, s: Store, p: Poll, id: Member)
    requires OneShotStore(s, id)
    ensures var s' := Polled(lib, s, p).0;
            && OneShotStore(s', id)
            && RunsIn(lib, s, PollOp(p), id) + (if id in s'.queue then 1 else 0) <= if id in s.queue then 1 else 0
  {
    var ids := RangeByScore(s.queue, p.now, p.limit);
    var (s1, jobs) := PopDue(s, p.now, p.limit);
    RangeByScoreIsDue(s.queue, p.now, p.limit);
    ClaimedOnce(s, ids, id);
    ExecutedCount(lib, p, jobs, 0, id);
    assert jobs[0..] == jobs;
    RunFromKeepsOneShot(lib, p, s1, jobs, 0, id);
  }

  /** Whatever else happens to the queue, a job that is only ever saved as a one-shot runs at most as often
      as it is saved. */
  lemma {:induction false} OneShotRunsOncePerSave(lib: TimeLib, s: Store, ops: seq<Op>, id: Member)
    requires OneShotStore(s, id)
    requires forall op :: op in ops && SavesJob(op, id) ==> OneShot(op.job.schedule)
    ensures Runs(lib, s, ops, id) <= Saves(ops, id) + if id in s.queue then 1 else 0
    decreases |ops|
  {
    if ops != [] {
      if ops[0].PollOp? {
        PollRunsQueuedOnce(lib, s, ops[0].poll, id);
      }
      assert forall op :: op in ops[1..] ==> op in ops;
      assert ops[0] in ops;
      OneShotRunsOncePerSave(lib, Apply(lib, s, ops[0]), ops[1..], id);
    }
  }

  // ---- The error counter, and a job deleted while it runs.

  /** How many outcomes at the end are failures. */
  function FailuresAtEnd(os: seq<Outcome>): nat {
    if os == [] || !Fails(os[|os| - 1]) then 0 else 1 + FailuresAtEnd(os[..|os| - 1])
  }

  predicate AllFail(os: seq<Outcome>) {
    forall k :: 0 <= k < |os| ==> Fails(os[k])
  }

  lemma {:induction false} FailuresAppend(a: seq<Outcome>, b: seq<Outcome>)
    ensures FailuresAtEnd(a + b) == FailuresAtEnd(b) + if AllFail(b) then FailuresAtEnd(a) else 0
    ensures AllFail(a + b) <==> AllFail(a) && AllFail(b)
    ensures b != [] && FailuresAtEnd(b) == 0 ==> !AllFail(b)
  {
    if b == [] {
      assert a + b == a;
    } else {
      var front := b[..|b| - 1];
      assert (a + b)[..|a + b| - 1] == a + front;
      FailuresAppend(a, front);
      assert b == front + [b[|b| - 1]];
      assert forall k :: 0 <= k < |b| ==> (a + b)[|a| + k] == b[k];
    }
  }

  /** The outcomes of the runs of job `id` that a poll stores, from the i-th claimed job on; a run whose
      rescheduling raises is not stored. */
  function OutcomesFrom(lib: TimeLib, p: Poll, jobs: seq<Job>, i: nat, id: Member): seq<Outcome>
    requires i <= |jobs|
    decreases |jobs| - i
  {
    if i == |jobs| || !CanReschedule(lib, jobs[i], p.finish(i).requeued) then []
    else (if jobs[i].id == id then [p.outcome(i)] else []) + OutcomesFrom(lib, p, jobs, i + 1, id)
  }

  function OutcomesIn(lib: TimeLib, s: Store, op: Op, id: Member): seq<Outcome> {
    if op.PollOp? then OutcomesFrom(lib, op.poll, PopDue(s, op.poll.now, op.poll.limit).1, 0, id) else []
  }

  function OutcomesOf(lib: TimeLib, s: Store, ops: seq<Op>, id: Member): seq<Outcome>
    decreases |ops|
  {
    if ops == [] then []
    else OutcomesIn(lib, s, ops[0], id) + OutcomesOf(lib, Apply(lib, s, ops[0]), ops[1..], id)
  }

  /** Blobs are stored under their own id. */
  ghost predicate Keyed(s: Store) {
    forall k :: k in s.jobs ==> s.jobs[k].id == k
  }

  /** What the second blob of a job tells about the runs since the first. */
  ghost predicate Tells(j: Job, j': Job, os: seq<Outcome>) {
    && j'.consecutiveErrors == FailuresAtEnd(os) + (if AllFail(os) then j.consecutiveErrors else 0)
    && (j'.lastError.None? <==> if os == [] then j.lastError.None? else FailuresAtEnd(os) == 0)
  }

  lemma TellsTogether(j: Job, j1: Job, j2: Job, a: seq<Outcome>, b: seq<Outcome>)
    requires Tells(j, j1, a) && Tells(j1, j2, b)
    ensures Tells(j, j2, a + b)
  {
    FailuresAppend(a, b);
    hide FailuresAtEnd;
    if b == [] {
      assert a + b == a;
    }
  }

  ghost predicate ToldOf(s: Store, s': Store, id: Member, os: seq<Outcome>) {
    id in s'.jobs ==> id in s.jobs && Tells(s.jobs[id], s'.jobs[id], os)
  }

  /** The jobs from the i-th on are distinct and still as stored. */
  ghost predicate StillStored(s: Store, jobs: seq<Job>, i: nat) {
    && (forall k :: i <= k < |jobs| ==> jobs[k].id in s.jobs && s.jobs[jobs[k].id] == jobs[k])
    && (forall k, l :: i <= k < l < |jobs| ==> jobs[k].id != jobs[l].id)
  }

  lemma {:induction false} RunnableIsStored(s: Store, ids: seq<Member>)
    requires Distinct(ids) && Keyed(s)
    ensures StillStored(s, Runnable(s.jobs, ids), 0)
    ensures forall j :: j in Runnable(s.jobs, ids) ==> j.id in ids
  {
    if ids != [] {
      var front, last := ids[..|ids| - 1], ids[|ids| - 1];
      assert ids == front + [last] && last !in front;
      RunnableIsStored(s, front);
      assert forall k :: 0 <= k < |Runnable(s.jobs, front)| ==>
               Runnable(s.jobs, front)[k] in Runnable(s.jobs, front);
    }
  }

  lemma NothingTold(j: Job)
    ensures Tells(j, j, [])
  {
  }

  lemma RecordedTells(j: Job, o: Outcome, f: Finish)
    ensures Recorded(j, o, f).id == j.id && Tells(j, Recorded(j, o, f), [o])
  {
    hide Clip, JoinErrors;
    assert [o][..0] == [] && FailuresAtEnd([]) == 0;
  }

  /** Rescheduling changes neither the report of a job nor any other job. */
  lemma RescheduleKeepsReport(lib: TimeLib, s: Store, j: Job, now: int)
    requires CanReschedule(lib, j, now)
    ensures var s' := Rescheduled(lib, s, j, now);
            && (j.id in s'.jobs ==>
                  var j' := s'.jobs[j.id];
                  j'.id == j.id && j'.consecutiveErrors == j.consecutiveErrors && j'.lastError == j.lastError)
            && forall k :: k != j.id ==> SameAt(s', s, k)
  {
    hide NextRunMs;
  }

  /** One run, recorded and rescheduled. */
  lemma RescheduledTells(lib: TimeLib, s: Store, claimed: Job, o: Outcome, f: Finish, id: Member)
    requires CanReschedule(lib, claimed, f.requeued) && claimed.id in s.jobs && s.jobs[claimed.id] == claimed
    ensures var s' := Rescheduled(lib, s, Recorded(claimed, o, f), f.requeued);
            && ToldOf(s, s', id, if claimed.id == id then [o] else [])
            && (forall k :: k != claimed.id ==> SameAt(s', s, k))
            && (Keyed(s) ==> Keyed(s'))
  {
    var j := Recorded(claimed, o, f);
    assert CanReschedule(lib, j, f.requeued);
    hide Rescheduled, Recorded, FailuresAtEnd, AllFail;
    RecordedTells(claimed, o, f);
    RescheduleKeepsReport(lib, s, j, f.requeued);
    if id in s.jobs {
      NothingTold(s.jobs[id]);
    }
  }

  lemma {:induction false} RunFromTells(lib: TimeLib, p: Poll, s: Store, jobs: seq<Job>, i: nat, id: Member)
    requires i <= |jobs| && StillStored(s, jobs, i) && Keyed(s)
    ensures ToldOf(s, RunFrom(lib, p, s, jobs, i).0, id, OutcomesFrom(lib, p, jobs, i, id))
    ensures Keyed(RunFrom(lib, p, s, jobs, i).0)
    decreases |jobs| - i
  {
    if i < |jobs| && CanReschedule(lib, jobs[i], p.finish(i).requeued) {
      var s1 := Rescheduled(lib, s, Recorded(jobs[i], p.outcome(i), p.finish(i)), p.finish(i).requeued);
      RescheduledTells(lib, s, jobs[i], p.outcome(i), p.finish(i), id);
      forall k | i < k < |jobs|
        ensures SameAt(s1, s, jobs[k].id)
      {
      }
      RunFromTells(lib, p, s1, jobs, i + 1, id);
      var s', now := RunFrom(lib, p, s, jobs, i).0, if jobs[i].id == id then [p.outcome(i)] else [];
      hide Rescheduled, Recorded, Tells, OutcomesFrom, CanReschedule;
      if id in s'.jobs {
        TellsTogether(s.jobs[id], s1.jobs[id], s'.jobs[id], now, OutcomesFrom(lib, p, jobs, i + 1, id));
      }
    }
  }

  /** Over any run in which job `id` is not saved by a client: if it is still stored, its counter is the
      number of failed runs since its last clean one, and it carries no error exactly after a clean run. */
  lemma {:induction false} CounterCountsFailures(lib: TimeLib, s: Store, ops: seq<Op>, id: Member)
    requires Keyed(s) && forall i :: 0 <= i < |ops| ==> !SavesJob(ops[i], id)
    requires id in After(lib, s, ops).jobs
    ensures var os := OutcomesOf(lib, s, ops, id);
            var j' := After(lib, s, ops).jobs[id];
            && id in s.jobs
            && j'.consecutiveErrors == FailuresAtEnd(os) + (if AllFail(os) then s.jobs[id].consecutiveErrors else 0)
            && (j'.lastError.None? <==> if os == [] then s.jobs[id].lastError.None? else FailuresAtEnd(os) == 0)
    decreases |ops|
  {
    if ops != [] {
      var op, s1 := ops[0], Apply(lib, s, ops[0]);
      OpTells(lib, s, op, id);
      CounterCountsFailures(lib, s1, ops[1..], id);
      hide Apply, OutcomesIn, FailuresAtEnd, AllFail;
      TellsTogether(s.jobs[id], s1.jobs[id], After(lib, s, ops).jobs[id], OutcomesIn(lib, s, op, id),
                    OutcomesOf(lib, s1, ops[1..], id));
    }
  }

  lemma CandidatesApart(q: ZSet, now: int, limit: nat)
    ensures Distinct(RangeByScore(q, now, limit))
  {
    RangeByScoreIsDue(q, now, limit);
  }

  lemma PollTells(lib: TimeLib, s: Store, p: Poll, id: Member)
    requires Keyed(s)
    ensures ToldOf(s, Polled(lib, s, p).0, id, OutcomesFrom(lib, p, PopDue(s, p.now, p.limit).1, 0, id))
    ensures Keyed(Polled(lib, s, p).0)
  {
    CandidatesApart(s.queue, p.now, p.limit);
    hide RangeByScore, RunFrom, OutcomesFrom, ToldOf, Runnable;
    var (s1, jobs) := PopDue(s, p.now, p.limit);
    RunnableIsStored(s, RangeByScore(s.queue, p.now, p.limit));
    RunFromTells(lib, p, s1, jobs, 0, id);
    SameBlobsSameTale(s, s1, Polled(lib, s, p).0, id, OutcomesFrom(lib, p, jobs, 0, id));
  }

  lemma OpTells(lib: TimeLib, s: Store, op: Op, id: Member)
    requires Keyed(s) && !SavesJob(op, id)
    ensures ToldOf(s, Apply(lib, s, op), id, OutcomesIn(lib, s, op, id)) && Keyed(Apply(lib, s, op))
  {
    if op.PollOp? {
      hide Polled, OutcomesFrom, PopDue, ToldOf;
      PollTells(lib, s, op.poll, id);
    } else {
      assert FailuresAtEnd([]) == 0;
    }
  }

  lemma SameBlobsSameTale(s: Store, s1: Store, s': Store, id: Member, os: seq<Outcome>)
    requires s1.jobs == s.jobs && ToldOf(s1, s', id, os)
    ensures ToldOf(s, s', id, os)
  {
  }

  /** A job deleted between its claim and its rescheduling is stored again, except a one-shot that is
      deleted after its run; an enabled cron job is queued again too. */
  lemma DeletedWhileRunningReturns(lib: TimeLib, s: Store, claimed: Job, o: Outcome, f: Finish)
    requires CanReschedule(lib, claimed, f.requeued)
    ensures var s' := Rescheduled(lib, Deleted(s, claimed.id), Recorded(claimed, o, f), f.requeued);
            && (claimed.id in s'.jobs <==> !(OneShot(claimed.schedule) && claimed.deleteAfterRun))
            && (claimed.id in s'.queue <==> !OneShot(claimed.schedule) && claimed.enabled)
  {
  }
}
