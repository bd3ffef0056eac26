/** Galadriel's cron jobs: one blob per job, a sorted set of due times, and the worker's poll, which
    claims due jobs by taking them off the queue, runs them, and requeues or retires them. */
module CronQueue {
  import opened Options
  import opened SortedSets

  // ---- Schedules.

  datatype Kind = Cron | At

  datatype Schedule = Schedule(kind: Kind, expr: Option<string>, tz: string, atIso: Option<string>)

  /** The unseen time libraries; None stands for an exception. */
  datatype TimeLib = TimeLib(cronNext: (string, string, int) -> Option<int>, parseIso: (string, string) -> Option<int>)

  /** The contract of a cron library: the next firing lies strictly after the given time. */
  ghost predicate MovesForward(lib: TimeLib) {
    forall e, tz, now :: lib.cronNext(e, tz, now).Some? ==> lib.cronNext(e, tz, now).value > now
  }

  datatype NextRun = Raises | Never | RunAt(ms: int)

  predicate Given(s: Option<string>) {
    s.Some? && s.value != ""
  }

  function NextRunMs(lib: TimeLib, s: Schedule, now: int): NextRun {
    if s.kind == Cron then
      if !Given(s.expr) then Raises
      else match lib.cronNext(s.expr.value, s.tz, now)
           case None => Raises
           case Some(ms) => RunAt(ms)
    else
      if !Given(s.atIso) then Raises
      else match lib.parseIso(s.atIso.value, s.tz)
           case None => Raises
           case Some(ms) => if ms < now then Never else RunAt(ms)
  }

  predicate OneShot(s: Schedule) {
    s.kind == At
  }

  // ---- Jobs and their store.

  datatype Job = Job(id: Member, schedule: Schedule, payload: string, deleteAfterRun: bool, enabled: bool,
                     nextRun: Option<int>, lastRun: Option<int>, lastDuration: Option<int>, lastStatus: Option<string>,
                     lastError: Option<string>, consecutiveErrors: nat)

  datatype Store = Store(jobs: map<Member, Job>, queue: ZSet)

  predicate Scheduled(j: Job) {
    j.enabled && j.nextRun.Some?
  }

  function Saved(s: Store, j: Job): Store {
    Store(s.jobs[j.id := j], if Scheduled(j) then s.queue[j.id := j.nextRun.value] else s.queue - {j.id})
  }

  function Deleted(s: Store, id: Member): Store {
    Store(s.jobs - {id}, s.queue - {id})
  }

  /** Blob and queue agree about job `id`: it is queued, at its own next run time, exactly when it is
      stored, enabled and scheduled. */
  predicate AgreesOn(s: Store, id: Member) {
    && (id in s.jobs ==> s.jobs[id].id == id)
    && (id in s.queue <==> id in s.jobs && Scheduled(s.jobs[id]))
    && (id in s.queue ==> s.queue[id] == s.jobs[id].nextRun.value)
  }

  ghost predicate Agrees(s: Store) {
    forall id: Member :: AgreesOn(s, id)
  }

  // ---- Claiming.

  function Remaining(q: ZSet, taken: seq<Member>): ZSet {
    map id | id in q && id !in taken :: q[id]
  }

  function Runnable(jobs: map<Member, Job>, ids: seq<Member>): seq<Job> {
    if ids == [] then []
    else
      var id := ids[|ids| - 1];
      Runnable(jobs, ids[..|ids| - 1]) + if id in jobs && jobs[id].enabled then [jobs[id]] else []
  }

  function PopDue(s: Store, now: int, limit: nat): (Store, seq<Job>) {
    var ids := RangeByScore(s.queue, now, limit);
    (s.(queue := Remaining(s.queue, ids)), Runnable(s.jobs, ids))
  }

  lemma NothingTaken(q: ZSet, jobs: map<Member, Job>, ids: seq<Member>)
    ensures Remaining(q, ids[..0]) == q && Runnable(jobs, ids[..0]) == [] && ids[..|ids|] == ids
  {
  }

  lemma EachCandidateOnce(q: ZSet, now: int, limit: nat, i: nat)
    requires i < |RangeByScore(q, now, limit)|
    ensures RangeByScore(q, now, limit)[i] in q
    ensures RangeByScore(q, now, limit)[i] !in RangeByScore(q, now, limit)[..i]
  {
    RangeByScoreIsDue(q, now, limit);
    var ids := RangeByScore(q, now, limit);
    assert ids[i] in ids;
  }

  lemma ClaimNext(q: ZSet, jobs: map<Member, Job>, ids: seq<Member>, i: nat)
    requires i < |ids| && ids[i] in q && ids[i] !in ids[..i]
    ensures ids[i] in Remaining(q, ids[..i])
    ensures Remaining(q, ids[..i + 1]) == Remaining(q, ids[..i]) - {ids[i]}
    ensures Runnable(jobs, ids[..i + 1])
         == Runnable(jobs, ids[..i]) + if ids[i] in jobs && jobs[ids[i]].enabled then [jobs[ids[i]]] else []
  {
    assert ids[..i + 1] == ids[..i] + [ids[i]];
    assert ids[..i + 1][..i] == ids[..i];
  }

  // ---- Running and rescheduling.

  /** How the execution of a job went: a result with the errors it reports, or an exception. */
  datatype Outcome = Done(errors: seq<string>, status: string) | Raised(text: string)

  predicate Fails(o: Outcome) {
    o.Raised? || o.errors != []
  }

  function JoinErrors(errors: seq<string>): string {
    if errors == [] then "" else if |errors| == 1 then errors[0] else errors[0] + "; " + JoinErrors(errors[1..])
  }

  function Clip(s: string): string {
    if |s| <= 500 then s else s[..500]
  }

  /** When a run ended, how long it took, and what the clock says when the job is rescheduled. */
  datatype Finish = Finish(at: int, duration: int, requeued: int)

  function Recorded(j: Job, o: Outcome, f: Finish): Job {
    match o
    case Raised(text) =>
      j.(lastRun := Some(f.at), lastDuration := Some(f.duration), lastStatus := Some("error"), lastError := Some(text),
         consecutiveErrors := j.consecutiveErrors + 1)
    case Done(errors, status) =>
      if errors == [] then
        j.(lastRun := Some(f.at), lastDuration := Some(f.duration), lastStatus := Some("ok"), lastError := None,
           consecutiveErrors := 0)
      else
        j.(lastRun := Some(f.at), lastDuration := Some(f.duration), lastStatus := Some(status),
           lastError := Some(Clip(JoinErrors(errors))),
           consecutiveErrors := j.consecutiveErrors + 1)
  }

  /** Whether rescheduling a job at a time goes through; a cron job without a usable expression raises. */
  predicate CanReschedule(lib: TimeLib, j: Job, now: int) {
    OneShot(j.schedule) || !NextRunMs(lib, j.schedule, now).Raises?
  }

  function Rescheduled(lib: TimeLib, s: Store, j: Job, now: int): Store
    requires CanReschedule(lib, j, now)
  {
    if OneShot(j.schedule) && j.deleteAfterRun then Deleted(s, j.id)
    else if OneShot(j.schedule) then Saved(s, j.(nextRun := None, enabled := false))
    else Saved(s, j.(nextRun := match NextRunMs(lib, j.schedule, now) case RunAt(ms) => Some(ms) case _ => None))
  }

  /** What the world does during one poll: how the i-th claimed job went and how its run ended. */
  datatype Poll = Poll(now: int, limit: nat, outcome: nat -> Outcome, finish: nat -> Finish)

  /** Run the claimed jobs from the i-th on; false when an exception drops the rest. */
  function RunFrom(lib: TimeLib, p: Poll, s: Store, jobs: seq<Job>, i: nat): (Store, bool)
    requires i <= |jobs|
    decreases |jobs| - i
  {
    if i == |jobs| then (s, true)
    else
      var j := Recorded(jobs[i], p.outcome(i), p.finish(i));
      if CanReschedule(lib, j, p.finish(i).requeued) then
        RunFrom(lib, p, Rescheduled(lib, s, j, p.finish(i).requeued), jobs, i + 1)
      else (s, false)
  }

  function Polled(lib: TimeLib, s: Store, p: Poll): (Store, bool) {
    var (s1, jobs) := PopDue(s, p.now, p.limit);
    RunFrom(lib, p, s1, jobs, 0)
  }

  // ---- The store and the worker as programs.

  class JobStore {
    const lib: TimeLib
    var jobs: map<Member, Job>
    var queue: ZSet

    ghost function Contents(): Store
      reads this
    {
      Store(jobs, queue)
    }

    constructor (lib: TimeLib)
      ensures this.lib == lib && Contents() == Store(map[], map[])
    {
      this.lib := lib;
      jobs, queue := map[], map[];
    }

    method SaveJob(j: Job)
      modifies this
      ensures Contents() == Saved(old(Contents()), j)
    {
      jobs := jobs[j.id := j];
      if j.nextRun.Some? && j.enabled {
        queue := queue[j.id := j.nextRun.value];
      } else {
        queue := queue - {j.id};
      }
    }

    method DeleteJob(id: Member) returns (existed: bool)
      modifies this
      ensures Contents() == Deleted(old(Contents()), id) && existed == (id in old(jobs))
    {
      existed := id in jobs;
      jobs := jobs - {id};
      queue := queue - {id};
    }

    method PopDueJobs(now: int, limit: nat) returns (claimed: seq<Job>)
      modifies this`queue
      ensures (Contents(), claimed) == PopDue(old(Contents()), now, limit)
    {
      var candidates := RangeByScore(queue, now, limit);
      claimed := [];
      NothingTaken(queue, jobs, candidates);
      hide Ranked, RangeByScore, Due, Remaining, Runnable;
      for i := 0 to |candidates|
        invariant queue == Remaining(old(queue), candidates[..i])
        invariant claimed == Runnable(jobs, candidates[..i])
      {
        var id := candidates[i];
        EachCandidateOnce(old(queue), now, limit, i);
        ClaimNext(old(queue), jobs, candidates, i);
        if id in queue {
          queue := queue - {id};
          if id in jobs && jobs[id].enabled {
            claimed := claimed + [jobs[id]];
          }
        }
      }
    }

    /** False stands for an exception out of `next_run_ms`. */
    method Reschedule(j: Job, now: int) returns (ok: bool)
      modifies this
      ensures ok == CanReschedule(lib, j, now)
      ensures Contents() == if ok then Rescheduled(lib, old(Contents()), j, now) else old(Contents())
    {
      if OneShot(j.schedule) && j.deleteAfterRun {
        var _ := DeleteJob(j.id);
        return true;
      }
      var updated: Job;
      if OneShot(j.schedule) {
        updated := j.(nextRun := None, enabled := false);
      } else {
        var next := NextRunMs(lib, j.schedule, now);
        if next.Raises? {
          return false;
        }
        updated := j.(nextRun := if next.RunAt? then Some(next.ms) else None);
      }
      SaveJob(updated);
      return true;
    }

    method RunOne(claimed: Job, o: Outcome, f: Finish) returns (ok: bool)
      modifies this
      ensures var j := Recorded(claimed, o, f);
              && ok == CanReschedule(lib, j, f.requeued)
              && Contents() == if ok then Rescheduled(lib, old(Contents()), j, f.requeued) else old(Contents())
    {
      var job := claimed;
      if o.Raised? {
        job := job.(lastRun := Some(f.at), lastDuration := Some(f.duration), lastStatus := Some("error"),
                    lastError := Some(o.text), consecutiveErrors := job.consecutiveErrors + 1);
      } else {
        var failed := o.errors != [];
        job := job.(lastRun := Some(f.at), lastDuration := Some(f.duration),
                    lastStatus := Some(if failed then o.status else "ok"),
                    lastError := if failed then Some(Clip(JoinErrors(o.errors))) else None,
                    consecutiveErrors := if failed then job.consecutiveErrors + 1 else 0);
      }
      ok := Reschedule(job, f.requeued);
    }

    /** One turn of the worker's loop. */
    method PollOnce(p: Poll) returns (ok: bool)
      modifies this
      ensures (Contents(), ok) == Polled(lib, old(Contents()), p)
    {
      var claimed := PopDueJobs(p.now, p.limit);
      ok := true;
      var i := 0;
      while i < |claimed|
        invariant i <= |claimed| && ok
        invariant RunFrom(lib, p, Contents(), claimed, i) == Polled(lib, old(Contents()), p)
      {
        ok := RunOne(claimed[i], p.outcome(i), p.finish(i));
        if !ok {
          return;
        }
        i := i + 1;
      }
    }
  }
}
