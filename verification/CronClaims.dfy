/** Several cron workers and clients on one job store, interleaved command by command.  `save_job` and
    `delete_job` are two commands each; a worker scans for due jobs, then takes each candidate off the
    queue, reads its blob, and later runs what it claimed. */
module CronClaims {
  import opened Options
  import opened SortedSets
  import opened CronQueue

  type WorkerId = nat

  /** A queue entry.  `ticket` counts the times the id came into the queue; `version` is fresh with
      every write of the entry. */
  datatype Entry = Entry(score: int, ticket: nat, version: nat)

  datatype Candidate = Candidate(id: Member, score: int, version: nat)

  /** A successful removal from the queue: by whom, of which insertion, with the score the entry had, the
      time the worker goes by, and whether the entry was written again since the worker's scan. */
  datatype Claim = Claim(worker: WorkerId, id: Member, ticket: nat, score: int, now: int, rewritten: bool)

  datatype Worker =
    | Idle
    | Popping(now: int, candidates: seq<Candidate>, reading: Option<Claim>, claimed: seq<Claim>)
    | Running(jobs: seq<Claim>)

  /** The shared store, the workers, and a record of what happened: how often each id came into the
      queue, all claims, and all runs. */
  datatype State = State(jobs: map<Member, Job>, queue: map<Member, Entry>, workers: map<WorkerId, Worker>,
                         inserted: map<Member, nat>, writes: nat, claims: seq<Claim>, runs: seq<Claim>)

  datatype Action =
    | StoreBlob(job: Job)                    // first half of save_job
    | DropBlob(id: Member)                   // first half of delete_job
    | Enqueue(id: Member, score: int)        // second half of save_job: scheduled
    | Dequeue(id: Member)                    // second half of save_job or delete_job
    | Scan(w: WorkerId, now: int, limit: nat)
    | TryClaim(w: WorkerId)
    | ReadBlob(w: WorkerId)
    | Begin(w: WorkerId)
    | RunNext(w: WorkerId)
    | GiveUp(w: WorkerId)                    // end of the batch, or an exception

  function Inserted(s: State, id: Member): nat {
    if id in s.inserted then s.inserted[id] else 0
  }

  function WorkerOf(s: State, w: WorkerId): Worker {
    if w in s.workers then s.workers[w] else Idle
  }

  function Scores(q: map<Member, Entry>): ZSet {
    map id | id in q :: q[id].score
  }

  function CandidatesOf(q: map<Member, Entry>, ids: seq<Member>): seq<Candidate>
    requires forall id :: id in ids ==> id in q
  {
    seq(|ids|, i requires 0 <= i < |ids| => assert ids[i] in ids;
      Candidate(ids[i], q[ids[i]].score, q[ids[i]].version))
  }

  function Enqueued(s: State, id: Member, score: int): State {
    if id in s.queue then
      s.(queue := s.queue[id := Entry(score, s.queue[id].ticket, s.writes)], writes := s.writes + 1)
    else
      s.(queue := s.queue[id := Entry(score, Inserted(s, id) + 1, s.writes)], writes := s.writes + 1,
         inserted := s.inserted[id := Inserted(s, id) + 1])
  }

  function Scanned(s: State, w: WorkerId, now: int, limit: nat): State {
    RangeByScoreIsDue(Scores(s.queue), now, limit);
    var ids := RangeByScore(Scores(s.queue), now, limit);
    s.(workers := s.workers[w := Popping(now, CandidatesOf(s.queue, ids), None, [])])
  }

  /** The head candidate is removed from the queue if it is still there; otherwise the race is lost. */
  function Claimed(s: State, w: WorkerId, p: Worker): State
    requires p.Popping? && p.candidates != []
  {
    var c, rest := p.candidates[0], p.(candidates := p.candidates[1..]);
    if c.id in s.queue then
      var e := s.queue[c.id];
      var claim := Claim(w, c.id, e.ticket, e.score, p.now, e.version != c.version);
      s.(queue := s.queue - {c.id}, claims := s.claims + [claim],
         workers := s.workers[w := rest.(reading := Some(claim))])
    else s.(workers := s.workers[w := rest])
  }

  /** A step of the system; an action whose turn it is not changes nothing. */
  function Next(s: State, a: Action): State {
    match a
    case StoreBlob(j) => s.(jobs := s.jobs[j.id := j])
    case DropBlob(id) => s.(jobs := s.jobs - {id})
    case Enqueue(id, score) => Enqueued(s, id, score)
    case Dequeue(id) => s.(queue := s.queue - {id})
    case Scan(w, now, limit) => if WorkerOf(s, w).Idle? then Scanned(s, w, now, limit) else s
    case TryClaim(w) =>
      var p := WorkerOf(s, w);
      if p.Popping? && p.reading.None? && p.candidates != [] then Claimed(s, w, p) else s
    case ReadBlob(w) =>
      var p := WorkerOf(s, w);
      if p.Popping? && p.reading.Some? then
        var c := p.reading.value;
        var keep := c.id in s.jobs && s.jobs[c.id].enabled;
        s.(workers := s.workers[w := p.(reading := None, claimed := if keep then p.claimed + [c] else p.claimed)])
      else s
    case Begin(w) =>
      var p := WorkerOf(s, w);
      if p.Popping? && p.reading.None? && p.candidates == [] then
        s.(workers := s.workers[w := Running(p.claimed)])
      else s
    case RunNext(w) =>
      var p := WorkerOf(s, w);
      if p.Running? && p.jobs != [] then
        s.(runs := s.runs + [p.jobs[0]], workers := s.workers[w := Running(p.jobs[1..])])
      else s
    case GiveUp(w) => s.(workers := s.workers[w := Idle])
  }

  const INITIAL := State(map[], map[], map[], map[], 0, [], [])

  function After(s: State, actions: seq<Action>): State {
    if actions == [] then s else Next(After(s, actions[..|actions| - 1]), actions[|actions| - 1])
  }

  // ---- Each insertion is claimed at most once.

  predicate SameInsertion(a: Claim, b: Claim) {
    a.id == b.id && a.ticket == b.ticket
  }

  ghost predicate PairwiseApart(cs: seq<Claim>) {
    forall i, j :: 0 <= i < j < |cs| ==> !SameInsertion(cs[i], cs[j])
  }

  function ClaimsOf(cs: seq<Claim>, id: Member): nat {
    if cs == [] then 0 else ClaimsOf(cs[..|cs| - 1], id) + if cs[|cs| - 1].id == id then 1 else 0
  }

  ghost predicate Spent(s: State, c: Claim) {
    1 <= c.ticket <= Inserted(s, c.id) && (c.id in s.queue ==> c.ticket < s.queue[c.id].ticket)
  }

  ghost predicate QueueTickets(s: State) {
    forall id :: id in s.queue ==> s.queue[id].ticket == Inserted(s, id) && 1 <= s.queue[id].ticket
  }

  ghost predicate Accounted(s: State, id: Member) {
    ClaimsOf(s.claims, id) + (if id in s.queue then 1 else 0) <= Inserted(s, id)
  }

  ghost predicate ClaimsExclusive(s: State) {
    && QueueTickets(s)
    && (forall i :: 0 <= i < |s.claims| ==> Spent(s, s.claims[i]))
    && PairwiseApart(s.claims)
    && (forall id: Member :: Accounted(s, id))
  }

  lemma ClaimKeepsExclusive(s: State, w: WorkerId, p: Worker)
    requires ClaimsExclusive(s) && p.Popping? && p.candidates != []
    ensures ClaimsExclusive(Claimed(s, w, p))
  {
    var s' := Claimed(s, w, p);
    var id := p.candidates[0].id;
    if id in s.queue {
      assert s'.claims[..|s.claims|] == s.claims;
      forall i | 0 <= i < |s'.claims|
        ensures Spent(s', s'.claims[i])
      {
        assert i < |s.claims| ==> Spent(s, s.claims[i]) && s'.claims[i] == s.claims[i];
      }
      forall i, j | 0 <= i < j < |s'.claims|
        ensures !SameInsertion(s'.claims[i], s'.claims[j])
      {
        assert Spent(s, s.claims[i]);
        assert j < |s.claims| ==> !SameInsertion(s.claims[i], s.claims[j]);
      }
      forall k: Member
        ensures Accounted(s', k)
      {
        assert Accounted(s, k);
      }
    } else {
      OnlyWorkersChanged(s, s');
    }
  }

  lemma OnlyWorkersChanged(s: State, s': State)
    requires ClaimsExclusive(s)
    requires s'.queue == s.queue && s'.inserted == s.inserted && s'.claims == s.claims
    ensures ClaimsExclusive(s')
  {
    forall i | 0 <= i < |s'.claims|
      ensures Spent(s', s'.claims[i])
    {
      assert Spent(s, s.claims[i]);
    }
    forall k: Member
      ensures Accounted(s', k)
    {
      assert Accounted(s, k);
    }
  }

  lemma QueueWriteKeepsExclusive(s: State, s': State, id: Member, score: int)
    requires ClaimsExclusive(s) && (s' == Enqueued(s, id, score) || s' == s.(queue := s.queue - {id}))
    ensures ClaimsExclusive(s')
  {
    forall i | 0 <= i < |s'.claims|
      ensures Spent(s', s'.claims[i])
    {
      assert Spent(s, s.claims[i]);
    }
    forall k: Member
      ensures Accounted(s', k)
    {
      assert Accounted(s, k);
    }
  }

  lemma StepKeepsExclusive(s: State, a: Action)
    requires ClaimsExclusive(s)
    ensures ClaimsExclusive(Next(s, a))
  {
    hide ClaimsExclusive;
    match a {
      case Enqueue(id, score) => QueueWriteKeepsExclusive(s, Next(s, a), id, score);
      case Dequeue(id) => QueueWriteKeepsExclusive(s, Next(s, a), id, 0);
      case TryClaim(w) =>
        var p := WorkerOf(s, w);
        if p.Popping? && p.reading.None? && p.candidates != [] {
          ClaimKeepsExclusive(s, w, p);
        }
      case _ => OnlyWorkersChanged(s, Next(s, a));
    }
  }

  // ---- Each claim is run at most once, by its claimant.

  function Holding(p: Worker): seq<Claim> {
    match p
    case Idle => []
    case Popping(_, _, reading, claimed) => claimed + if reading.Some? then [reading.value] else []
    case Running(jobs) => jobs
  }

  ghost predicate HeldBy(s: State, w: WorkerId, c: Claim) {
    c.worker == w && c in s.claims && c !in s.runs
  }

  ghost predicate RunsExclusive(s: State) {
    && PairwiseApart(s.runs)
    && (forall c :: c in s.runs ==> c in s.claims)
    && (forall w :: w in s.workers ==> PairwiseApart(Holding(s.workers[w])))
    && (forall w, c :: w in s.workers && c in Holding(s.workers[w]) ==> HeldBy(s, w, c))
  }

  lemma SameInsertionSameClaim(s: State, a: Claim, b: Claim)
    requires ClaimsExclusive(s) && a in s.claims && b in s.claims && SameInsertion(a, b)
    ensures a == b
  {
    var i :| 0 <= i < |s.claims| && s.claims[i] == a;
    var j :| 0 <= j < |s.claims| && s.claims[j] == b;
    assert SameInsertion(b, a);
  }

  /** A worker may end up holding any claims it held before, each once. */
  lemma HoldingLess(s: State, w: WorkerId, p: Worker)
    requires RunsExclusive(s) && PairwiseApart(Holding(p))
    requires forall c :: c in Holding(p) ==> c in Holding(WorkerOf(s, w))
    ensures RunsExclusive(s.(workers := s.workers[w := p]))
  {
    var s' := s.(workers := s.workers[w := p]);
    forall v, c | v in s'.workers && c in Holding(s'.workers[v])
      ensures HeldBy(s', v, c)
    {
      assert HeldBy(s, v, c);
    }
  }

  lemma ClaimKeepsRunsExclusive(s: State, w: WorkerId, p: Worker)
    requires ClaimsExclusive(s) && RunsExclusive(s)
    requires p == WorkerOf(s, w) && p.Popping? && p.reading.None? && p.candidates != []
    ensures RunsExclusive(Claimed(s, w, p))
  {
    var s' := Claimed(s, w, p);
    var id := p.candidates[0].id;
    if id in s.queue {
      var claim := s'.claims[|s.claims|];
      assert s'.claims == s.claims + [claim];
      forall c | c in s.claims
        ensures !SameInsertion(c, claim)
      {
        var i :| 0 <= i < |s.claims| && s.claims[i] == c;
        assert Spent(s, s.claims[i]);
      }
      forall v, c | v in s'.workers && c in Holding(s'.workers[v])
        ensures HeldBy(s', v, c)
      {
        if c != claim {
          assert HeldBy(s, v, c);
        }
      }
      assert PairwiseApart(Holding(s'.workers[w])) by {
        assert Holding(s'.workers[w]) == Holding(p) + [claim];
        assert forall i :: 0 <= i < |Holding(p)| ==> Holding(p)[i] in Holding(p);
      }
    } else {
      HoldingLess(s, w, s'.workers[w]);
    }
  }

  lemma RunKeepsRunsExclusive(s: State, w: WorkerId, jobs: seq<Claim>)
    requires ClaimsExclusive(s) && RunsExclusive(s) && WorkerOf(s, w) == Running(jobs) && jobs != []
    ensures RunsExclusive(s.(runs := s.runs + [jobs[0]], workers := s.workers[w := Running(jobs[1..])]))
  {
    var s' := s.(runs := s.runs + [jobs[0]], workers := s.workers[w := Running(jobs[1..])]);
    assert jobs[0] in Holding(s.workers[w]) && HeldBy(s, w, jobs[0]);
    forall i, j | 0 <= i < j < |s'.runs|
      ensures !SameInsertion(s'.runs[i], s'.runs[j])
    {
      if j == |s.runs| && SameInsertion(s.runs[i], jobs[0]) {
        assert s.runs[i] in s.runs;
        SameInsertionSameClaim(s, s.runs[i], jobs[0]);
      }
    }
    forall v, c | v in s'.workers && c in Holding(s'.workers[v])
      ensures HeldBy(s', v, c)
    {
      assert HeldBy(s, v, c);
      if v == w {
        var j :| 0 < j < |jobs| && jobs[j] == c;
        assert !SameInsertion(jobs[0], jobs[j]);
      }
    }
  }

  lemma StepKeepsRunsExclusive(s: State, a: Action)
    requires ClaimsExclusive(s) && RunsExclusive(s)
    ensures RunsExclusive(Next(s, a))
  {
    match a {
      case TryClaim(w) =>
        var p := WorkerOf(s, w);
        if p.Popping? && p.reading.None? && p.candidates != [] {
          ClaimKeepsRunsExclusive(s, w, p);
        }
      case RunNext(w) =>
        var p := WorkerOf(s, w);
        if p.Running? && p.jobs != [] {
          RunKeepsRunsExclusive(s, w, p.jobs);
        }
      case Scan(w, _, _) => QuietStep(s, a, w);
      case ReadBlob(w) => QuietStep(s, a, w);
      case Begin(w) => QuietStep(s, a, w);
      case GiveUp(w) => QuietStep(s, a, w);
      case _ => OtherStep(s, Next(s, a));
    }
  }

  lemma OtherStep(s: State, s': State)
    requires RunsExclusive(s) && s'.workers == s.workers && s'.claims == s.claims && s'.runs == s.runs
    ensures RunsExclusive(s')
  {
    forall v, c | v in s'.workers && c in Holding(s'.workers[v])
      ensures HeldBy(s', v, c)
    {
      assert HeldBy(s, v, c);
    }
  }

  lemma ScanHoldsNothing(s: State, w: WorkerId, now: int, limit: nat)
    ensures var s' := Scanned(s, w, now, limit);
            w in s'.workers && s' == s.(workers := s.workers[w := s'.workers[w]]) && Holding(s'.workers[w]) == []
  {
  }

  lemma QuietStep(s: State, a: Action, w: WorkerId)
    requires RunsExclusive(s)
    requires a.Scan? || a.ReadBlob? || a.Begin? || a.GiveUp?
    requires w == a.w
    ensures RunsExclusive(Next(s, a))
  {
    if a.Scan? {
      ScanHoldsNothing(s, w, a.now, a.limit);
    }
    hide Scanned, RunsExclusive;
    var s' := Next(s, a);
    if s' != s {
      assert s' == s.(workers := s.workers[w := s'.workers[w]]);
      HoldsNoMore(s, a, w);
      HoldingLess(s, w, s'.workers[w]);
    }
  }

  lemma HoldsNoMore(s: State, a: Action, w: WorkerId)
    requires RunsExclusive(s)
    requires a.Scan? || a.ReadBlob? || a.Begin? || a.GiveUp?
    requires w == a.w && Next(s, a) != s
    ensures w in Next(s, a).workers && PairwiseApart(Holding(Next(s, a).workers[w]))
    ensures forall c :: c in Holding(Next(s, a).workers[w]) ==> c in Holding(WorkerOf(s, w))
  {
    if a.Scan? {
      ScanHoldsNothing(s, w, a.now, a.limit);
    }
    hide Scanned;
    var p, p' := WorkerOf(s, w), Next(s, a).workers[w];
    if a.ReadBlob? {
      assert Holding(p) == p.claimed + [p.reading.value];
      assert Holding(p') == Holding(p) || Holding(p') == Holding(p)[..|p.claimed|];
    } else if a.Begin? {
      assert Holding(p') == Holding(p);
    }
  }

  /** In any interleaving of any number of workers and clients: for each job the successful claims never
      outnumber its insertions into the queue, and no insertion is run twice. */
  lemma {:induction false} OneRunPerInsertion(actions: seq<Action>, id: Member)
    ensures var s := After(INITIAL, actions);
            && ClaimsExclusive(s) && RunsExclusive(s)
            && ClaimsOf(s.claims, id) <= Inserted(s, id)
            && PairwiseApart(s.runs) && (forall c :: c in s.runs ==> c in s.claims)
  {
    if actions != [] {
      var front := actions[..|actions| - 1];
      OneRunPerInsertion(front, id);
      StepKeepsExclusive(After(INITIAL, front), actions[|actions| - 1]);
      StepKeepsRunsExclusive(After(INITIAL, front), actions[|actions| - 1]);
    }
    assert Accounted(After(INITIAL, actions), id);
  }

  // ---- A claim is of a due entry unless the entry was written again after the scan.

  ghost predicate Fresh(s: State, c: Candidate, now: int) {
    c.version < s.writes && c.score <= now
    && (c.id in s.queue && s.queue[c.id].version == c.version ==> s.queue[c.id].score == c.score)
  }

  ghost predicate WorkerFresh(s: State, p: Worker) {
    p.Popping? ==> forall i :: 0 <= i < |p.candidates| ==> Fresh(s, p.candidates[i], p.now)
  }

  ghost predicate Dated(s: State) {
    && (forall id :: id in s.queue ==> s.queue[id].version < s.writes)
    && (forall w :: w in s.workers ==> WorkerFresh(s, s.workers[w]))
    && (forall c :: c in s.claims && !c.rewritten ==> c.score <= c.now)
  }

  lemma ScanIsFresh(s: State, w: WorkerId, now: int, limit: nat)
    requires Dated(s)
    ensures WorkerFresh(Scanned(s, w, now, limit), Scanned(s, w, now, limit).workers[w])
  {
    RangeByScoreIsDue(Scores(s.queue), now, limit);
    var ids := RangeByScore(Scores(s.queue), now, limit);
    hide RangeByScore;
    forall i | 0 <= i < |ids|
      ensures ids[i] in ids && s.queue[ids[i]].score <= now
    {
      assert ids[i] in Due(Scores(s.queue), now);
    }
  }

  /** What is in the queue afterwards was there before, or is written since. */
  ghost predicate WritesAreFresh(s: State, s': State) {
    forall id :: id in s'.queue ==>
      (id in s.queue && s'.queue[id] == s.queue[id]) || s'.queue[id].version >= s.writes
  }

  lemma FreshLater(s: State, s': State, p: Worker)
    requires WorkerFresh(s, p) && s.writes <= s'.writes
    requires WritesAreFresh(s, s')
    ensures WorkerFresh(s', p)
  {
    if p.Popping? {
      forall i | 0 <= i < |p.candidates|
        ensures Fresh(s', p.candidates[i], p.now)
      {
        assert Fresh(s, p.candidates[i], p.now);
      }
    }
  }

  /** A step that leaves the claims alone, and all workers but perhaps one. */
  lemma DatedLater(s: State, s': State, w: WorkerId)
    requires Dated(s) && s'.claims == s.claims && s.writes <= s'.writes
    requires forall id :: id in s'.queue ==> s'.queue[id].version < s'.writes
    requires WritesAreFresh(s, s')
    requires forall v :: v in s'.workers ==> (v in s.workers && s'.workers[v] == s.workers[v]) || v == w
    requires w in s'.workers ==> WorkerFresh(s', s'.workers[w])
    ensures Dated(s')
  {
    forall v | v in s'.workers
      ensures WorkerFresh(s', s'.workers[v])
    {
      if v != w {
        FreshLater(s, s', s.workers[v]);
      }
    }
  }

  lemma WorkerStepKeepsDated(s: State, a: Action, w: WorkerId)
    requires Dated(s)
    requires (a.Scan? || a.ReadBlob? || a.Begin? || a.RunNext? || a.GiveUp?) && w == a.w
    ensures Dated(Next(s, a))
  {
    if a.Scan? {
      ScanIsFresh(s, w, a.now, a.limit);
    }
    var s' := Next(s, a);
    assert WorkerFresh(s, WorkerOf(s, w));
    DatedLater(s, s', w);
  }

  lemma ClaimKeepsDated(s: State, w: WorkerId, p: Worker)
    requires Dated(s) && p == WorkerOf(s, w) && p.Popping? && p.reading.None? && p.candidates != []
    ensures Dated(Claimed(s, w, p))
  {
    var s' := Claimed(s, w, p);
    assert Fresh(s, p.candidates[0], p.now);
    forall v | v in s'.workers
      ensures WorkerFresh(s', s'.workers[v])
    {
      if v != w {
        FreshLater(s, s', s.workers[v]);
      } else {
        var rest := p.(candidates := p.candidates[1..]);
        assert WorkerFresh(s, rest);
        FreshLater(s, s', rest);
      }
    }
  }

  lemma StepKeepsDated(s: State, a: Action)
    requires Dated(s)
    ensures Dated(Next(s, a))
  {
    hide WorkerFresh;
    match a {
      case StoreBlob(_) => SharedStepKeepsDated(s, Next(s, a));
      case DropBlob(_) => SharedStepKeepsDated(s, Next(s, a));
      case Enqueue(_, _) => SharedStepKeepsDated(s, Next(s, a));
      case Dequeue(_) => SharedStepKeepsDated(s, Next(s, a));
      case TryClaim(w) =>
        var p := WorkerOf(s, w);
        if p.Popping? && p.reading.None? && p.candidates != [] {
          ClaimKeepsDated(s, w, p);
        }
      case Scan(w, _, _) => WorkerStepKeepsDated(s, a, w);
      case ReadBlob(w) => WorkerStepKeepsDated(s, a, w);
      case Begin(w) => WorkerStepKeepsDated(s, a, w);
      case RunNext(w) => WorkerStepKeepsDated(s, a, w);
      case GiveUp(w) => WorkerStepKeepsDated(s, a, w);
    }
  }

  lemma SharedStepKeepsDated(s: State, s': State)
    requires Dated(s) && s'.claims == s.claims && s.writes <= s'.writes && s'.workers == s.workers
    requires forall id :: id in s'.queue ==> s'.queue[id].version < s'.writes
    requires WritesAreFresh(s, s')
    ensures Dated(s')
  {
    forall v | v in s'.workers
      ensures WorkerFresh(s', s'.workers[v])
    {
      FreshLater(s, s', s.workers[v]);
    }
  }

  /** In any interleaving, a claimed entry that was not written again since its worker's scan was due. */
  lemma {:induction false} UnrewrittenClaimsAreDue(actions: seq<Action>)
    ensures Dated(After(INITIAL, actions))
    ensures forall c :: c in After(INITIAL, actions).claims && !c.rewritten ==> c.score <= c.now
  {
    if actions != [] {
      UnrewrittenClaimsAreDue(actions[..|actions| - 1]);
      StepKeepsDated(After(INITIAL, actions[..|actions| - 1]), actions[|actions| - 1]);
    }
  }

  // ---- Without that condition it fails.

  /** Two workers see job `id` due at time `now`; the first claims it and it is queued again for time `next`;
      the second, still on its old list, claims the new entry at time `now`. */
  function StaleRun(id: Member, due: int, now: int, next: int, limit: nat): seq<Action> {
    [Enqueue(id, due), Scan(1, now, limit), Scan(2, now, limit), TryClaim(1), Enqueue(id, next), TryClaim(2)]
  }

  lemma OneDue(q: map<Member, Entry>, id: Member, now: int, limit: nat)
    requires q.Keys == {id} && 0 <= q[id].score <= now && limit >= 1
    ensures RangeByScore(Scores(q), now, limit) == [id]
  {
    var z := Scores(q);
    var ids := RangeByScore(z, now, limit);
    assert Due(z, now) == map[id := q[id].score];
    RangeByScoreIsDue(z, now, limit);
    hide RangeByScore;
    assert |ids| == 1 && ids[0] in ids && ids[0] in Due(z, now);
  }

  function Seen(id: Member, due: int, now: int): Worker {
    Popping(now, [Candidate(id, due, 0)], None, [])
  }

  lemma ScanSeesIt(s: State, w: WorkerId, id: Member, due: int, now: int, limit: nat)
    requires s.queue == map[id := Entry(due, 1, 0)] && 0 <= due <= now && limit >= 1
    ensures Scanned(s, w, now, limit) == s.(workers := s.workers[w := Seen(id, due, now)])
  {
    OneDue(s.queue, id, now, limit);
    assert CandidatesOf(s.queue, [id]) == [Candidate(id, due, 0)];
  }

  /** The states of the run. */
  function OnceQueued(id: Member, due: int): State {
    INITIAL.(queue := map[id := Entry(due, 1, 0)], inserted := map[id := 1], writes := 1)
  }

  function SeenBy(s: State, w: WorkerId, id: Member, due: int, now: int): State {
    s.(workers := s.workers[w := Seen(id, due, now)])
  }

  function TwiceSeen(id: Member, due: int, now: int): State {
    SeenBy(SeenBy(OnceQueued(id, due), 1, id, due, now), 2, id, due, now)
  }

  function ClaimedOnce(id: Member, due: int, now: int): State {
    var s, first := TwiceSeen(id, due, now), Claim(1, id, 1, due, now, false);
    s.(queue := map[], claims := [first],
       workers := s.workers[1 := Seen(id, due, now).(candidates := [], reading := Some(first))])
  }

  function Requeued(id: Member, due: int, now: int, next: int): State {
    ClaimedOnce(id, due, now).(queue := map[id := Entry(next, 2, 1)], inserted := map[id := 2], writes := 2)
  }

  lemma AWorkerSeesIt(s: State, w: WorkerId, id: Member, due: int, now: int, limit: nat)
    requires s.queue == map[id := Entry(due, 1, 0)] && 0 <= due <= now && limit >= 1 && w !in s.workers
    ensures Next(s, Scan(w, now, limit)) == SeenBy(s, w, id, due, now)
  {
    hide Scanned, Seen, RangeByScore, CandidatesOf, Scores, Ranked, Due, Claimed, Enqueued, Remaining;
    ScanSeesIt(s, w, id, due, now, limit);
  }

  lemma BothWorkersSeeIt(id: Member, due: int, now: int, limit: nat)
    requires 0 <= due <= now && limit >= 1
    ensures var queued := OnceQueued(id, due);
            && Next(INITIAL, Enqueue(id, due)) == queued
            && Next(queued, Scan(1, now, limit)) == SeenBy(queued, 1, id, due, now)
            && Next(SeenBy(queued, 1, id, due, now), Scan(2, now, limit)) == TwiceSeen(id, due, now)
  {
    var queued := OnceQueued(id, due);
    assert Next(INITIAL, Enqueue(id, due)) == queued;
    hide Next;
    AWorkerSeesIt(queued, 1, id, due, now, limit);
    AWorkerSeesIt(SeenBy(queued, 1, id, due, now), 2, id, due, now, limit);
  }

  lemma TheFirstClaimsIt(id: Member, due: int, now: int, next: int)
    ensures Next(TwiceSeen(id, due, now), TryClaim(1)) == ClaimedOnce(id, due, now)
    ensures Next(ClaimedOnce(id, due, now), Enqueue(id, next)) == Requeued(id, due, now, next)
  {
    var s, s', seen := TwiceSeen(id, due, now), ClaimedOnce(id, due, now), Seen(id, due, now);
    assert s.queue - {id} == map[] && seen.candidates[1..] == [];
    assert s.claims + s'.claims == s'.claims;
  }

  lemma TheSecondClaimsItAgain(id: Member, due: int, now: int, next: int)
    ensures Next(Requeued(id, due, now, next), TryClaim(2)).claims
         == [Claim(1, id, 1, due, now, false), Claim(2, id, 2, next, now, true)]
  {
  }

  lemma FollowStaleRun(id: Member, due: int, now: int, next: int, limit: nat)
    requires 0 <= due <= now && limit >= 1
    ensures After(INITIAL, StaleRun(id, due, now, next, limit)) == Next(Requeued(id, due, now, next), TryClaim(2))
  {
    hide Next, After, OnceQueued, SeenBy, TwiceSeen, ClaimedOnce, Requeued, Seen;
    var queued := OnceQueued(id, due);
    BothWorkersSeeIt(id, due, now, limit);
    TheFirstClaimsIt(id, due, now, next);
    SixSteps(INITIAL, StaleRun(id, due, now, next, limit), queued, SeenBy(queued, 1, id, due, now),
             TwiceSeen(id, due, now), ClaimedOnce(id, due, now), Requeued(id, due, now, next),
             Next(Requeued(id, due, now, next), TryClaim(2)));
  }

  /** The second claim has score `next`, so it is early exactly when `next` lies after `now`. */
  lemma StaleCandidateIsClaimedEarly(id: Member, due: int, now: int, next: int, limit: nat)
    requires 0 <= due <= now && limit >= 1
    ensures var s := After(INITIAL, StaleRun(id, due, now, next, limit));
            && s.claims == [Claim(1, id, 1, due, now, false), Claim(2, id, 2, next, now, true)]
            && (s.claims[1].score > s.claims[1].now <==> next > now)
  {
    FollowStaleRun(id, due, now, next, limit);
    TheSecondClaimsItAgain(id, due, now, next);
    hide Next, After, Requeued;
  }

  // ---- Exactly when all claims are due.

  /** Every entry is queued for a time of E, and every scan is made at a time of N. */
  ghost predicate Draws(a: Action, E: iset<int>, N: iset<int>) {
    (a.Enqueue? ==> a.score in E) && (a.Scan? ==> a.now in N)
  }

  ghost predicate AllDraw(actions: seq<Action>, E: iset<int>, N: iset<int>) {
    forall i :: 0 <= i < |actions| ==> Draws(actions[i], E, N)
  }

  /** Something was due at a scan. */
  predicate DueAt(score: int, now: int) {
    0 <= score <= now
  }

  /** An entry may be due at a scan and then be queued again for a time after that scan. */
  ghost predicate MayBeOvertaken(E: iset<int>, N: iset<int>) {
    exists due, now, later :: due in E && now in N && later in E && DueAt(due, now) && now < later
  }

  ghost predicate SomethingWasDue(E: iset<int>, N: iset<int>, now: int) {
    now in N && exists due :: due in E && DueAt(due, now)
  }

  ghost predicate WorkerDrawn(p: Worker, E: iset<int>, N: iset<int>) {
    p.Popping? && p.candidates != [] ==> SomethingWasDue(E, N, p.now)
  }

  ghost predicate Drawn(s: State, E: iset<int>, N: iset<int>) {
    && (forall id :: id in s.queue ==> s.queue[id].score in E)
    && (forall w :: w in s.workers ==> WorkerDrawn(s.workers[w], E, N))
    && (forall c :: c in s.claims ==> c.score in E && SomethingWasDue(E, N, c.now))
  }

  lemma ScanDraws(s: State, w: WorkerId, now: int, limit: nat, E: iset<int>, N: iset<int>)
    requires Drawn(s, E, N) && now in N
    ensures WorkerDrawn(Scanned(s, w, now, limit).workers[w], E, N)
  {
    RangeByScoreIsDue(Scores(s.queue), now, limit);
    var ids := RangeByScore(Scores(s.queue), now, limit);
    hide RangeByScore;
    if ids != [] {
      assert ids[0] in ids && ids[0] in Due(Scores(s.queue), now);
      assert DueAt(s.queue[ids[0]].score, now);
    }
  }

  lemma StepKeepsDrawn(s: State, a: Action, E: iset<int>, N: iset<int>)
    requires Drawn(s, E, N) && Draws(a, E, N)
    ensures Drawn(Next(s, a), E, N)
  {
    hide SomethingWasDue, Claimed, Scanned, Enqueued;
    if a.TryClaim? {
      var p := WorkerOf(s, a.w);
      if p.Popping? && p.candidates != [] {
        ClaimKeepsDrawn(s, a.w, p, E, N);
      }
    } else if a.Scan? {
      ScanKeepsDrawn(s, a.w, a.now, a.limit, E, N);
    } else if a.Enqueue? {
      EnqueueKeepsDrawn(s, a.id, a.score, E, N);
    }
  }

  lemma EnqueueKeepsDrawn(s: State, id: Member, score: int, E: iset<int>, N: iset<int>)
    requires Drawn(s, E, N) && score in E
    ensures Drawn(Enqueued(s, id, score), E, N)
  {
    hide WorkerDrawn, SomethingWasDue;
  }

  lemma ScanKeepsDrawn(s: State, w: WorkerId, now: int, limit: nat, E: iset<int>, N: iset<int>)
    requires Drawn(s, E, N) && now in N
    ensures Drawn(Scanned(s, w, now, limit), E, N)
  {
    ScanDraws(s, w, now, limit, E, N);
    hide WorkerDrawn, SomethingWasDue, CandidatesOf;
  }

  lemma ClaimKeepsDrawn(s: State, w: WorkerId, p: Worker, E: iset<int>, N: iset<int>)
    requires Drawn(s, E, N) && p == WorkerOf(s, w) && p.Popping? && p.candidates != []
    ensures Drawn(Claimed(s, w, p), E, N)
  {
    hide SomethingWasDue;
    assert WorkerDrawn(p, E, N);
  }

  lemma {:induction false} RunIsDrawn(actions: seq<Action>, E: iset<int>, N: iset<int>)
    requires AllDraw(actions, E, N)
    ensures Drawn(After(INITIAL, actions), E, N)
  {
    if actions != [] {
      RunIsDrawn(actions[..|actions| - 1], E, N);
      assert Draws(actions[|actions| - 1], E, N);
      StepKeepsDrawn(After(INITIAL, actions[..|actions| - 1]), actions[|actions| - 1], E, N);
    }
  }

  /** The exact condition: with entries queued for times of E and scans at times of N, every claim of every
      run is of a due entry if and only if nothing due at a scan can be queued for a time after that scan. */
  lemma ClaimsAreDueExactly(E: iset<int>, N: iset<int>)
    ensures (forall actions: seq<Action> :: AllDraw(actions, E, N) ==>
               forall c :: c in After(INITIAL, actions).claims ==> c.score <= c.now)
       <==> !MayBeOvertaken(E, N)
  {
    if MayBeOvertaken(E, N) {
      var due, now, later :| due in E && now in N && later in E && DueAt(due, now) && now < later;
      StaleCandidateIsClaimedEarly(0, due, now, later, 1);
      var run := StaleRun(0, due, now, later, 1);
      hide After;
      assert AllDraw(run, E, N);
      assert After(INITIAL, run).claims[1] in After(INITIAL, run).claims;
    } else {
      forall actions: seq<Action>, c | AllDraw(actions, E, N) && c in After(INITIAL, actions).claims
        ensures c.score <= c.now
      {
        RunIsDrawn(actions, E, N);
        var due :| due in E && DueAt(due, c.now);
      }
    }
  }

  lemma SixSteps(s0: State, a: seq<Action>, s1: State, s2: State, s3: State, s4: State, s5: State, s6: State)
    requires |a| == 6
    requires Next(s0, a[0]) == s1 && Next(s1, a[1]) == s2 && Next(s2, a[2]) == s3
    requires Next(s3, a[3]) == s4 && Next(s4, a[4]) == s5 && Next(s5, a[5]) == s6
    ensures After(s0, a) == s6
  {
    hide Next;
    assert a[..6] == a;
    forall k | 0 < k <= 6
      ensures a[..k][..k - 1] == a[..k - 1]
    {
    }
    assert After(s0, a[..1]) == s1;
    assert After(s0, a[..2]) == s2;
    assert After(s0, a[..3]) == s3;
    assert After(s0, a[..4]) == s4;
    assert After(s0, a[..5]) == s5;
  }
}
