/** Earendil's task queue: clients write a task's status and push it on a FIFO list, workers pop tasks and
    overwrite the status as they go, pollers read it.  Every store command is one step, and any of them
    may interleave; clients and workers may die between two of their commands. */
module TaskQueue {
  import opened Options
  import opened ShellPolicy

  type TaskId = nat
  type ActorId = nat

  const RESULT_TTL := 300.0

  /** `runsCommand` says that the task is a system task with action run_command. */
  datatype Task = Task(id: TaskId, runsCommand: bool, command: string)

  datatype Phase = Queued | Running | Completed | Failed

  predicate Terminal(p: Phase) {
    p.Completed? || p.Failed?
  }

  // ---- Executing a task.

  /** What running an admitted command in a subprocess gives. */
  datatype Process = Succeeded(output: string) | TimedOut | ExitCode(code: int, output: string) | Crashed(text: string)

  datatype TaskResult = NoResult | Success(output: string) | CommandError(text: string)

  datatype Blob = Blob(phase: Phase, result: TaskResult, error: Option<string>)

  function ResultOf(p: Process): TaskResult {
    match p
    case Succeeded(output) => Success(output)
    case TimedOut => CommandError("command timed out")
    case ExitCode(_, _) => CommandError("command failed with exit code")
    case Crashed(text) => CommandError(text)
  }

  /** The final status the worker stores.  A command that fails still completes its task; the task fails
      when it is refused or of another type. */
  function Execute(h: Host, shellAllowed: bool, t: Task, p: Process): Blob {
    if !t.runsCommand then Blob(Failed, NoResult, Some("Unsupported task type"))
    else if !shellAllowed then Blob(Failed, NoResult, Some("refused: shell execution is disabled in demo mode"))
    else if t.command == "" then Blob(Completed, CommandError("no command specified"), None)
    else match CheckCommand(h, t.command)
         case None => Blob(Failed, NoResult, Some("refused: command not in the Earendil allowlist"))
         case Some(c) =>
           if ArgvFor(h, c).Refused? then Blob(Failed, NoResult, Some("refused: command not in the Earendil allowlist"))
           else Blob(Completed, ResultOf(p), None)
  }

  /** Whether `enqueue_task` accepts a task. */
  predicate Accepts(h: Host, shellAllowed: bool, t: Task) {
    shellAllowed && (t.runsCommand ==> CheckCommand(h, t.command).Some?)
  }

  /** A task fails exactly when it is of an unsupported type, or its command is non-empty and refused, or
      shells are off; the second check in the worker refuses nothing the first one let through. */
  lemma FailsExactlyWhenRefused(h: Host, shellAllowed: bool, t: Task, p: Process)
    requires BlankIsSpace(h)
    ensures Terminal(Execute(h, shellAllowed, t, p).phase)
    ensures Execute(h, shellAllowed, t, p).phase.Failed?
       <==> !t.runsCommand || !shellAllowed || (t.command != "" && CheckCommand(h, t.command).None?)
    ensures Accepts(h, shellAllowed, t) && t.runsCommand ==> Execute(h, shellAllowed, t, p).phase.Completed?
    ensures !t.runsCommand ==> (Accepts(h, shellAllowed, t) <==> shellAllowed)
    ensures t.runsCommand && t.command != "" ==>
              (Accepts(h, shellAllowed, t) <==> Execute(h, shellAllowed, t, p).phase.Completed?)
  {
    CheckAgreesWithLaunch(h, t.command);
  }

  /** What is stored tells which it was: a failure why, a completion how the command ended. */
  lemma ExecuteTells(h: Host, shellAllowed: bool, t: Task, p: Process)
    requires BlankIsSpace(h)
    ensures var b := Execute(h, shellAllowed, t, p);
            && (b.error.Some? <==> b.phase.Failed?) && (b.result.NoResult? <==> b.phase.Failed?)
            && (b.error == Some("Unsupported task type") <==> !t.runsCommand)
            && (b.error == Some("refused: shell execution is disabled in demo mode")
                <==> t.runsCommand && !shellAllowed)
            && (b.phase.Failed? && t.runsCommand && shellAllowed ==>
                  b.error == Some("refused: command not in the Earendil allowlist"))
            && (b.phase.Completed? ==>
                  b.result == if t.command == "" then CommandError("no command specified")
                              else match p
                                   case Succeeded(output) => Success(output)
                                   case TimedOut => CommandError("command timed out")
                                   case ExitCode(_, _) => CommandError("command failed with exit code")
                                   case Crashed(text) => CommandError(text))
  {
    CheckAgreesWithLaunch(h, t.command);
  }

  // ---- The system.

  datatype Stored = Stored(blob: Blob, expires: real)

  datatype Client = Free | Enqueuing(task: Task)

  /** A worker is failing when the write of its completed result raised: it will write "failed" next,
      whether or not the store applied that write. */
  datatype Worker = Idle | Got(task: Task) | Busy(task: Task) | Failing(task: Task, error: string)

  /** Where a task is.  Recorded for the proofs only: no step reads it. */
  datatype Place = AtClient(c: ActorId) | InQueue | AtWorker(w: ActorId) | Gone

  datatype State = State(
    clock: real,
    status: map<TaskId, Stored>,
    queue: seq<Task>,
    clients: map<ActorId, Client>,
    workers: map<ActorId, Worker>,
    pushed: seq<Task>,                       // all tasks ever pushed, in order
    popped: seq<Task>,                       // all tasks ever popped, in order
    history: map<TaskId, seq<Blob>>,         // all statuses ever written for a task, in order
    place: map<TaskId, Place>)

  datatype Action =
    | SetQueued(c: ActorId, task: Task)
    | Push(c: ActorId)
    | ClientDies(c: ActorId)
    | Pop(w: ActorId)
    | SetRunning(w: ActorId)
    | SetResult(w: ActorId, host: Host, shellAllowed: bool, process: Process)
    | ResultWriteRaises(w: ActorId, host: Host, shellAllowed: bool, process: Process, applied: bool, error: string)
    | SetFailed(w: ActorId)
    | WorkerFails(w: ActorId)
    | Tick(elapsed: real)

  const INITIAL := State(0.0, map[], [], map[], map[], [], [], map[], map[])

  function ClientOf(s: State, c: ActorId): Client {
    if c in s.clients then s.clients[c] else Free
  }

  function WorkerOf(s: State, w: ActorId): Worker {
    if w in s.workers then s.workers[w] else Idle
  }

  function HistoryOf(s: State, id: TaskId): seq<Blob> {
    if id in s.history then s.history[id] else []
  }

  function Write(s: State, id: TaskId, b: Blob): State {
    s.(status := s.status[id := Stored(b, s.clock + RESULT_TTL)], history := s.history[id := HistoryOf(s, id) + [b]])
  }

  /** A client writes the first status of a task it is about to push. */
  function Announced(s: State, c: ActorId, t: Task): State {
    Write(s, t.id, Blob(Queued, NoResult, None))
      .(clients := s.clients[c := Enqueuing(t)], place := s.place[t.id := AtClient(c)])
  }

  /** A worker writes a final status and is free again. */
  function Finished(s: State, w: ActorId, id: TaskId, b: Blob): State {
    Write(s, id, b).(workers := s.workers[w := Idle], place := s.place[id := Gone])
  }

  /** One command.  A fresh task id is one for which nothing was ever written. */
  function Next(s: State, a: Action): State {
    match a
    case SetQueued(c, t) =>
      if ClientOf(s, c).Free? && t.id !in s.history then
        Announced(s, c, t)
      else s
    case Push(c) =>
      var k := ClientOf(s, c);
      if k.Enqueuing? then
        s.(clients := s.clients[c := Free], queue := s.queue + [k.task], pushed := s.pushed + [k.task],
           place := s.place[k.task.id := InQueue])
      else s
    case ClientDies(c) =>
      var k := ClientOf(s, c);
      if k.Enqueuing? then s.(clients := s.clients[c := Free], place := s.place[k.task.id := Gone]) else s
    case Pop(w) =>
      if WorkerOf(s, w).Idle? && s.queue != [] then
        var t := s.queue[0];
        s.(workers := s.workers[w := Got(t)], queue := s.queue[1..], popped := s.popped + [t],
           place := s.place[t.id := AtWorker(w)])
      else s
    case SetRunning(w) =>
      var k := WorkerOf(s, w);
      if k.Got? then Write(s, k.task.id, Blob(Running, NoResult, None)).(workers := s.workers[w := Busy(k.task)])
      else s
    case SetResult(w, h, allowed, p) =>
      var k := WorkerOf(s, w);
      if k.Busy? then
        Finished(s, w, k.task.id, Execute(h, allowed, k.task, p))
      else s
    case ResultWriteRaises(w, h, allowed, p, applied, error) =>
      var k := WorkerOf(s, w);
      if k.Busy? && Execute(h, allowed, k.task, p).phase.Completed? then
        (if applied then Write(s, k.task.id, Execute(h, allowed, k.task, p)) else s)
          .(workers := s.workers[w := Failing(k.task, error)])
      else s
    case SetFailed(w) =>
      var k := WorkerOf(s, w);
      if k.Failing? then
        Finished(s, w, k.task.id, Blob(Failed, NoResult, Some(k.error)))
      else s
    case WorkerFails(w) =>
      var k := WorkerOf(s, w);
      if !k.Idle? then s.(workers := s.workers[w := Idle], place := s.place[k.task.id := Gone]) else s
    case Tick(e) => if e >= 0.0 then s.(clock := s.clock + e) else s
  }

  function After(s: State, actions: seq<Action>): State {
    if actions == [] then s else Next(After(s, actions[..|actions| - 1]), actions[|actions| - 1])
  }

  /** What a reader finds: nothing once the key has expired. */
  function Observed(s: State, id: TaskId): Option<Blob> {
    if id in s.status && s.clock < s.status[id].expires then Some(s.status[id].blob) else None
  }

  /** A status that was written is found for 300 seconds, and then nothing is. */
  lemma StatusLives(s: State, id: TaskId, b: Blob, elapsed: real)
    requires elapsed >= 0.0
    ensures Observed(Next(Write(s, id, b), Tick(elapsed)), id) == if elapsed < 300.0 then Some(b) else None
  {
  }

  /** What each participant's next command does for a task it holds. */
  lemma ClientCommands(s: State, c: ActorId, t: Task)
    ensures ClientOf(s, c).Free? && t.id !in s.history ==>
              var s' := Next(s, SetQueued(c, t));
              && Observed(s', t.id) == Some(Blob(Queued, NoResult, None)) && ClientOf(s', c) == Enqueuing(t)
              && s'.queue == s.queue && s'.workers == s.workers
    ensures ClientOf(s, c) == Enqueuing(t) ==>
              var s' := Next(s, Push(c));
              && s'.queue == s.queue + [t] && ClientOf(s', c).Free? && SameReadings(s, s') && s'.workers == s.workers
    ensures ClientOf(s, c) == Enqueuing(t) ==>
              var s' := Next(s, ClientDies(c));
              s'.queue == s.queue && ClientOf(s', c).Free? && SameReadings(s, s') && s'.workers == s.workers
  {
  }

  lemma WorkerTakesUp(s: State, w: ActorId, t: Task)
    ensures WorkerOf(s, w).Idle? && s.queue != [] && s.queue[0] == t ==>
              var s' := Next(s, Pop(w));
              s'.queue == s.queue[1..] && WorkerOf(s', w) == Got(t) && SameReadings(s, s') && s'.clients == s.clients
    ensures WorkerOf(s, w) == Got(t) ==>
              var s' := Next(s, SetRunning(w));
              && Observed(s', t.id) == Some(Blob(Running, NoResult, None)) && WorkerOf(s', w) == Busy(t)
              && s'.queue == s.queue && s'.clients == s.clients
    ensures !WorkerOf(s, w).Idle? ==>
              var s' := Next(s, WorkerFails(w));
              WorkerOf(s', w).Idle? && s'.queue == s.queue && SameReadings(s, s') && s'.clients == s.clients
  {
  }

  lemma WorkerFinishes(s: State, w: ActorId, t: Task, h: Host, allowed: bool, p: Process, applied: bool, text: string)
    ensures WorkerOf(s, w) == Busy(t) ==>
              var s' := Next(s, SetResult(w, h, allowed, p));
              && Observed(s', t.id) == Some(Execute(h, allowed, t, p)) && WorkerOf(s', w).Idle?
              && s'.queue == s.queue && s'.clients == s.clients
    ensures WorkerOf(s, w) == Busy(t) && Execute(h, allowed, t, p).phase.Completed? ==>
              var s' := Next(s, ResultWriteRaises(w, h, allowed, p, applied, text));
              && Observed(s', t.id) == (if applied then Some(Execute(h, allowed, t, p)) else Observed(s, t.id))
              && WorkerOf(s', w) == Failing(t, text) && s'.queue == s.queue && s'.clients == s.clients
    ensures WorkerOf(s, w) == Failing(t, text) ==>
              var s' := Next(s, SetFailed(w));
              && Observed(s', t.id) == Some(Blob(Failed, NoResult, Some(text))) && WorkerOf(s', w).Idle?
              && s'.queue == s.queue && s'.clients == s.clients
  {
    hide Execute;
  }

  predicate SameReadings(s: State, s': State) {
    s'.status == s.status && s'.clock == s.clock
  }

  /** A client enqueues a task and a worker takes it up. */
  function TakenUp(s: State, c: ActorId, w: ActorId, t: Task): State {
    Next(Next(Next(Next(s, SetQueued(c, t)), Push(c)), Pop(w)), SetRunning(w))
  }

  /** A new task goes through an empty queue, as its reader sees it: queued until a free worker has popped it
      and written that it runs, then its result; client and worker are free again. */
  lemma TaskGoesThrough(s: State, c: ActorId, w: ActorId, t: Task, h: Host, allowed: bool, p: Process)
    requires t.id !in s.history && s.queue == []
    requires (c in s.clients ==> s.clients[c].Free?) && (w in s.workers ==> s.workers[w].Idle?)
    ensures var s1 := Next(s, SetQueued(c, t)); var s2 := Next(s1, Push(c)); var s3 := Next(s2, Pop(w));
            var s4 := Next(s3, SetRunning(w)); var s5 := Next(s4, SetResult(w, h, allowed, p));
            && Observed(s1, t.id) == Observed(s2, t.id) == Observed(s3, t.id) == Some(Blob(Queued, NoResult, None))
            && Observed(s4, t.id) == Some(Blob(Running, NoResult, None))
            && Observed(s5, t.id) == Some(Execute(h, allowed, t, p))
            && s2.queue == [t] && s5.queue == [] && ClientOf(s5, c).Free? && WorkerOf(s5, w).Idle?
            && s4 == TakenUp(s, c, w, t) && WorkerOf(s4, w) == Busy(t)
  {
    assert ClientOf(s, c).Free? && WorkerOf(s, w).Idle?;
    hide Next, Execute;
    var s1 := Next(s, SetQueued(c, t));
    var s2 := Next(s1, Push(c));
    var s3 := Next(s2, Pop(w));
    var s4 := Next(s3, SetRunning(w));
    ClientCommands(s, c, t);
    ClientCommands(s1, c, t);
    WorkerTakesUp(s2, w, t);
    WorkerTakesUp(s3, w, t);
    WorkerFinishes(s4, w, t, h, allowed, p, true, "");
  }

  /** A worker that loses the reply to its result writes "failed" in its place, whether or not the result had
      been stored; one that dies leaves the last status and drops its task. */
  lemma LostReplyFails(s: State, c: ActorId, w: ActorId, t: Task, h: Host, allowed: bool, p: Process,
                       applied: bool, text: string)
    requires t.id !in s.history && s.queue == []
    requires (c in s.clients ==> s.clients[c].Free?) && (w in s.workers ==> s.workers[w].Idle?)
    requires Execute(h, allowed, t, p).phase.Completed?
    ensures var s4 := TakenUp(s, c, w, t);
            var s5 := Next(s4, ResultWriteRaises(w, h, allowed, p, applied, text)); var s6 := Next(s5, SetFailed(w));
            && Observed(s5, t.id) == Some(if applied then Execute(h, allowed, t, p) else Blob(Running, NoResult, None))
            && Observed(s6, t.id) == Some(Blob(Failed, NoResult, Some(text))) && WorkerOf(s6, w).Idle?
    ensures var dead := Next(TakenUp(s, c, w, t), WorkerFails(w));
            && Observed(dead, t.id) == Some(Blob(Running, NoResult, None))
            && dead.queue == [] && WorkerOf(dead, w).Idle?
  {
    TaskGoesThrough(s, c, w, t, h, allowed, p);
    var s4 := TakenUp(s, c, w, t);
    hide Next, TakenUp, Execute;
    WorkerFinishes(s4, w, t, h, allowed, p, applied, text);
    WorkerFinishes(Next(s4, ResultWriteRaises(w, h, allowed, p, applied, text)), w, t, h, allowed, p, applied, text);
    WorkerFinishes(s4, w, t, h, allowed, p, true, "");
    WorkerTakesUp(s4, w, t);
  }

  // ---- What every reachable state keeps.

  predicate QueuedOnly(bs: seq<Blob>) {
    |bs| == 1 && bs[0].phase.Queued?
  }

  predicate StartedOnly(bs: seq<Blob>) {
    |bs| == 2 && bs[0].phase.Queued? && bs[1].phase.Running?
  }

  predicate CompletedOnly(bs: seq<Blob>) {
    |bs| == 3 && StartedOnly(bs[..2]) && bs[2].phase.Completed?
  }

  /** A beginning of: queued, running, one terminal status; or all of that with "completed" followed by
      "failed". */
  predicate InOrder(bs: seq<Blob>) {
    QueuedOnly(bs) || StartedOnly(bs)
    || (|bs| == 3 && StartedOnly(bs[..2]) && Terminal(bs[2].phase))
    || (|bs| == 4 && CompletedOnly(bs[..3]) && bs[3].phase.Failed?)
  }

  /** The worker has a task and is about to write "failed" for it. */
  predicate FailsNext(s: State, w: ActorId, id: TaskId) {
    WorkerOf(s, w).Failing? && WorkerOf(s, w).task.id == id
  }

  ghost predicate TaskOk(s: State, id: TaskId) {
    && (id in s.history ==>
          && id in s.place && InOrder(s.history[id])
          && id in s.status && s.status[id].blob == s.history[id][|s.history[id]| - 1]
          && (|s.history[id]| >= 3 && !s.place[id].Gone? ==>
                s.place[id].AtWorker? && FailsNext(s, s.place[id].w, id)))
    && (id in s.status ==> id in s.history)
  }

  ghost predicate ClientOk(s: State, c: ActorId) {
    var k := ClientOf(s, c);
    k.Enqueuing? ==> At(s, k.task.id, AtClient(c)) && QueuedOnly(s.history[k.task.id])
  }

  ghost predicate WorkerOk(s: State, w: ActorId) {
    match WorkerOf(s, w)
    case Idle => true
    case Got(t) => At(s, t.id, AtWorker(w)) && QueuedOnly(s.history[t.id])
    case Busy(t) => At(s, t.id, AtWorker(w)) && StartedOnly(s.history[t.id])
    case Failing(t, _) =>
      At(s, t.id, AtWorker(w)) && (StartedOnly(s.history[t.id]) || CompletedOnly(s.history[t.id]))
  }

  predicate At(s: State, id: TaskId, p: Place) {
    id in s.history && id in s.place && s.place[id] == p
  }

  ghost predicate QueueOk(s: State) {
    && (forall i :: 0 <= i < |s.queue| ==> At(s, s.queue[i].id, InQueue) && QueuedOnly(s.history[s.queue[i].id]))
    && (forall i, j :: 0 <= i < j < |s.queue| ==> s.queue[i].id != s.queue[j].id)
  }

  ghost predicate Ok(s: State) {
    && (forall id: TaskId :: TaskOk(s, id))
    && (forall c: ActorId :: ClientOk(s, c))
    && (forall w: ActorId :: WorkerOk(s, w))
    && QueueOk(s)
    && s.pushed == s.popped + s.queue
  }

  /** A step that writes about, or moves, at most task `id`, at most client `c` and at most worker `w`. */
  ghost predicate Local(s: State, s': State, id: TaskId, c: ActorId, w: ActorId) {
    && (forall k :: k != id ==>
          (k in s.history <==> k in s'.history) && (k in s.history ==> s'.history[k] == s.history[k]))
    && (forall k :: k != id ==> (k in s.place <==> k in s'.place) && (k in s.place ==> s'.place[k] == s.place[k]))
    && (forall k :: k != id ==> (k in s.status <==> k in s'.status) && (k in s.status ==> s'.status[k] == s.status[k]))
    && (forall d :: d != c ==> ClientOf(s', d) == ClientOf(s, d))
    && (forall v :: v != w ==> WorkerOf(s', v) == WorkerOf(s, v))
  }

  /** Such a step keeps the invariant if it does so for that task, client and worker, and the task was with
      that client, with that worker, in the queue, or new. */
  lemma LocalStep(s: State, s': State, id: TaskId, c: ActorId, w: ActorId)
    requires Ok(s) && Local(s, s', id, c, w)
    requires id in s.history ==> id in s.place && s.place[id] in {AtClient(c), AtWorker(w), InQueue}
    requires WorkerOf(s', w) == WorkerOf(s, w) || WorkerOf(s, w).Idle? || WorkerOf(s, w).task.id == id
    requires TaskOk(s', id) && ClientOk(s', c) && WorkerOk(s', w)
    requires QueueOk(s') && s'.pushed == s'.popped + s'.queue
    ensures Ok(s')
  {
    forall k: TaskId
      ensures TaskOk(s', k)
    {
      assert TaskOk(s, k);
    }
    forall d: ActorId
      ensures ClientOk(s', d)
    {
      assert ClientOk(s, d);
    }
    forall v: ActorId
      ensures WorkerOk(s', v)
    {
      assert WorkerOk(s, v);
    }
  }

  /** The queue is unaffected by what happens to a task that is not in it. */
  lemma QueueElsewhere(s: State, s': State, id: TaskId, c: ActorId, w: ActorId)
    requires QueueOk(s) && Local(s, s', id, c, w) && s'.queue == s.queue
    requires id in s.history ==> id in s.place && s.place[id] != InQueue
    ensures QueueOk(s')
  {
    forall i | 0 <= i < |s'.queue|
      ensures At(s', s'.queue[i].id, InQueue) && QueuedOnly(s'.history[s'.queue[i].id])
    {
      assert At(s, s.queue[i].id, InQueue);
    }
  }

  lemma SetQueuedKeepsOk(s: State, c: ActorId, t: Task)
    requires Ok(s) && ClientOf(s, c).Free? && t.id !in s.history
    ensures Ok(Announced(s, c, t))
  {
    var s' := Announced(s, c, t);
    assert WorkerOk(s, c) && ClientOk(s, c) && TaskOk(s, t.id);
    hide StartedOnly, CompletedOnly;
    QueueElsewhere(s, s', t.id, c, c);
    LocalStep(s, s', t.id, c, c);
  }

  lemma PushKeepsOk(s: State, c: ActorId)
    requires Ok(s) && ClientOf(s, c).Enqueuing?
    ensures Ok(Next(s, Push(c)))
  {
    var s', t := Next(s, Push(c)), ClientOf(s, c).task;
    assert ClientOk(s, c) && WorkerOk(s, c) && TaskOk(s, t.id);
    forall i | 0 <= i < |s'.queue|
      ensures At(s', s'.queue[i].id, InQueue) && QueuedOnly(s'.history[s'.queue[i].id])
      ensures i < |s.queue| ==> s'.queue[i].id != t.id
    {
      assert i < |s.queue| ==> At(s, s.queue[i].id, InQueue) && s'.queue[i] == s.queue[i];
    }
    LocalStep(s, s', t.id, c, c);
  }

  lemma PopKeepsOk(s: State, w: ActorId)
    requires Ok(s) && WorkerOf(s, w).Idle? && s.queue != []
    ensures Ok(Next(s, Pop(w)))
  {
    var s', t := Next(s, Pop(w)), s.queue[0];
    assert At(s, s.queue[0].id, InQueue);
    assert ClientOk(s, w) && TaskOk(s, t.id);
    forall i | 0 <= i < |s'.queue|
      ensures At(s', s'.queue[i].id, InQueue) && QueuedOnly(s'.history[s'.queue[i].id])
    {
      assert s'.queue[i] == s.queue[i + 1] && s.queue[0].id != s.queue[i + 1].id;
      assert At(s, s.queue[i + 1].id, InQueue);
    }
    LocalStep(s, s', t.id, w, w);
  }

  /** A worker's step about its own task keeps the invariant if it does so for that task and worker. */
  lemma WorkerStep(s: State, s': State, w: ActorId)
    requires Ok(s) && !WorkerOf(s, w).Idle? && Local(s, s', WorkerOf(s, w).task.id, w, w)
    requires s'.queue == s.queue && s'.pushed == s.pushed && s'.popped == s.popped && s'.clients == s.clients
    requires TaskOk(s', WorkerOf(s, w).task.id) && WorkerOk(s', w)
    ensures Ok(s')
  {
    var id := WorkerOf(s, w).task.id;
    assert WorkerOk(s, w) && ClientOk(s, w);
    hide TaskOk;
    QueueElsewhere(s, s', id, w, w);
    LocalStep(s, s', id, w, w);
  }

  lemma SetRunningKeepsOk(s: State, w: ActorId)
    requires Ok(s) && WorkerOf(s, w).Got?
    ensures Ok(Next(s, SetRunning(w)))
  {
    assert WorkerOk(s, w) && TaskOk(s, WorkerOf(s, w).task.id);
    hide Ok;
    WorkerStep(s, Next(s, SetRunning(w)), w);
  }

  lemma FinishKeepsOk(s: State, w: ActorId, id: TaskId, b: Blob)
    requires Ok(s) && !WorkerOf(s, w).Idle? && id == WorkerOf(s, w).task.id
    requires id in s.history && InOrder(s.history[id] + [b]) && |s.history[id]| >= 2
    ensures Ok(Finished(s, w, id, b))
  {
    hide Ok, InOrder;
    WorkerStep(s, Finished(s, w, id, b), w);
  }

  lemma ExecutionEnds(h: Host, allowed: bool, t: Task, p: Process)
    ensures Terminal(Execute(h, allowed, t, p).phase)
  {
  }

  lemma StartedThenTerminal(bs: seq<Blob>, b: Blob)
    requires StartedOnly(bs) && Terminal(b.phase)
    ensures InOrder(bs + [b]) && |bs| == 2
  {
    assert (bs + [b])[..2] == bs;
  }

  lemma SetResultKeepsOk(s: State, w: ActorId, h: Host, allowed: bool, p: Process)
    requires Ok(s) && WorkerOf(s, w).Busy?
    ensures Ok(Next(s, SetResult(w, h, allowed, p)))
  {
    var t := WorkerOf(s, w).task;
    var b := Execute(h, allowed, t, p);
    assert WorkerOk(s, w);
    ExecutionEnds(h, allowed, t, p);
    hide Ok, Execute, Finished, InOrder, StartedOnly, Terminal;
    StartedThenTerminal(s.history[t.id], b);
    FinishKeepsOk(s, w, t.id, b);
    assert Next(s, SetResult(w, h, allowed, p)) == Finished(s, w, t.id, b);
  }

  lemma RaisedKeepsOk(s: State, w: ActorId, b: Blob, error: string)
    requires Ok(s) && WorkerOf(s, w).Busy? && b.phase.Completed?
    ensures Ok(s.(workers := s.workers[w := Failing(WorkerOf(s, w).task, error)]))
    ensures Ok(Write(s, WorkerOf(s, w).task.id, b).(workers := s.workers[w := Failing(WorkerOf(s, w).task, error)]))
  {
    var t := WorkerOf(s, w).task;
    assert WorkerOk(s, w) && TaskOk(s, t.id);
    assert (s.history[t.id] + [b])[..2] == s.history[t.id];
    hide Ok;
    WorkerStep(s, s.(workers := s.workers[w := Failing(t, error)]), w);
    WorkerStep(s, Write(s, t.id, b).(workers := s.workers[w := Failing(t, error)]), w);
  }

  lemma SetFailedKeepsOk(s: State, w: ActorId)
    requires Ok(s) && WorkerOf(s, w).Failing?
    ensures Ok(Next(s, SetFailed(w)))
  {
    var k := WorkerOf(s, w);
    var b, h := Blob(Failed, NoResult, Some(k.error)), HistoryOf(s, k.task.id);
    assert WorkerOk(s, w);
    hide Ok, Finished;
    assert (h + [b])[..|h|] == h;
    FinishKeepsOk(s, w, k.task.id, b);
  }

  lemma WorkerFailureKeepsOk(s: State, w: ActorId)
    requires Ok(s) && !WorkerOf(s, w).Idle?
    ensures Ok(Next(s, WorkerFails(w)))
  {
    assert WorkerOk(s, w) && TaskOk(s, WorkerOf(s, w).task.id);
    hide Ok;
    WorkerStep(s, Next(s, WorkerFails(w)), w);
  }

  lemma ClientDeathKeepsOk(s: State, c: ActorId)
    requires Ok(s) && ClientOf(s, c).Enqueuing?
    ensures Ok(Next(s, ClientDies(c)))
  {
    var s', t := Next(s, ClientDies(c)), ClientOf(s, c).task;
    assert WorkerOk(s, c) && ClientOk(s, c) && TaskOk(s, t.id);
    QueueElsewhere(s, s', t.id, c, c);
    LocalStep(s, s', t.id, c, c);
  }

  lemma TickKeepsOk(s: State, e: real)
    requires Ok(s)
    ensures Ok(s.(clock := e))
  {
    var s' := s.(clock := e);
    assert forall id: TaskId :: TaskOk(s, id) ==> TaskOk(s', id);
    assert forall c: ActorId :: ClientOk(s, c) ==> ClientOk(s', c);
    assert forall w: ActorId :: WorkerOk(s, w) ==> WorkerOk(s', w);
    assert forall id, p :: At(s, id, p) ==> At(s', id, p);
  }

  lemma StepKeepsOk(s: State, a: Action)
    requires Ok(s)
    ensures Ok(Next(s, a))
  {
    hide Ok;
    match a {
      case SetQueued(c, t) =>
        if ClientOf(s, c).Free? && t.id !in s.history { SetQueuedKeepsOk(s, c, t); }
      case Push(c) =>
        if ClientOf(s, c).Enqueuing? { PushKeepsOk(s, c); }
      case ClientDies(c) =>
        if ClientOf(s, c).Enqueuing? { ClientDeathKeepsOk(s, c); }
      case Pop(w) =>
        if WorkerOf(s, w).Idle? && s.queue != [] { PopKeepsOk(s, w); }
      case SetRunning(w) =>
        if WorkerOf(s, w).Got? { SetRunningKeepsOk(s, w); }
      case SetResult(w, h, allowed, p) =>
        if WorkerOf(s, w).Busy? { SetResultKeepsOk(s, w, h, allowed, p); }
      case ResultWriteRaises(w, h, allowed, p, applied, error) =>
        if WorkerOf(s, w).Busy? && Execute(h, allowed, WorkerOf(s, w).task, p).phase.Completed? {
          RaisedKeepsOk(s, w, Execute(h, allowed, WorkerOf(s, w).task, p), error);
        }
      case SetFailed(w) =>
        if WorkerOf(s, w).Failing? { SetFailedKeepsOk(s, w); }
      case WorkerFails(w) =>
        if !WorkerOf(s, w).Idle? { WorkerFailureKeepsOk(s, w); }
      case Tick(e) => TickKeepsOk(s, s.clock + e);
    }
  }

  lemma {:induction false} Reachable(actions: seq<Action>)
    ensures Ok(After(INITIAL, actions))
  {
    if actions != [] {
      Reachable(actions[..|actions| - 1]);
      StepKeepsOk(After(INITIAL, actions[..|actions| - 1]), actions[|actions| - 1]);
    }
  }

  // ---- The main results.

  /** Tasks leave the queue in the order they entered it, and none is lost or doubled on the way. */
  lemma {:induction false} QueueConservation(actions: seq<Action>)
    ensures var s := After(INITIAL, actions); s.pushed == s.popped + s.queue
  {
    Reachable(actions);
  }

  lemma StepAppendsHistory(s: State, a: Action, id: TaskId)
    ensures HistoryOf(s, id) <= HistoryOf(Next(s, a), id)
  {
  }

  lemma {:induction false} HistoryGrows(s: State, actions: seq<Action>, id: TaskId)
    ensures HistoryOf(s, id) <= HistoryOf(After(s, actions), id)
  {
    if actions != [] {
      HistoryGrows(s, actions[..|actions| - 1], id);
      StepAppendsHistory(After(s, actions[..|actions| - 1]), actions[|actions| - 1], id);
    }
  }

  lemma {:induction false} AfterAppend(s: State, a: seq<Action>, b: seq<Action>)
    ensures After(s, a + b) == After(After(s, a), b)
  {
    if b == [] {
      assert a + b == a;
    } else {
      assert (a + b)[..|a + b| - 1] == a + b[..|b| - 1];
      AfterAppend(s, a, b[..|b| - 1]);
    }
  }

  /** A completed result is stored and a worker is about to overwrite it: the reply to its write was lost. */
  ghost predicate Overwriting(s: State, id: TaskId) {
    exists w :: FailsNext(s, w, id) && CompletedOnly(HistoryOf(s, id))
  }

  ghost predicate ForwardReadings(s1: State, s2: State, id: TaskId) {
    Observed(s1, id).Some? && Observed(s2, id).Some? ==>
      && (Observed(s2, id).value.phase.Queued? ==> Observed(s1, id).value.phase.Queued?)
      && (Observed(s2, id).value.phase.Running? ==> !Terminal(Observed(s1, id).value.phase))
      && (Terminal(Observed(s1, id).value.phase) && !Overwriting(s1, id) ==> Observed(s2, id) == Observed(s1, id))
  }

  /** Nothing is written about a task that has left the system. */
  lemma GoneStays(s: State, a: Action, id: TaskId)
    requires Ok(s) && At(s, id, Gone)
    ensures At(Next(s, a), id, Gone) && HistoryOf(Next(s, a), id) == HistoryOf(s, id)
  {
    if a.Push? || a.ClientDies? {
      assert ClientOk(s, a.c);
    } else if a.Pop? && s.queue != [] {
      assert At(s, s.queue[0].id, InQueue);
    } else if a.SetRunning? || a.SetResult? || a.ResultWriteRaises? || a.SetFailed? || a.WorkerFails? {
      assert WorkerOk(s, a.w);
    }
    hide Execute;
  }

  lemma {:induction false} GoneForever(s: State, actions: seq<Action>, id: TaskId)
    requires Ok(s) && At(s, id, Gone)
    ensures Ok(After(s, actions)) && At(After(s, actions), id, Gone)
    ensures HistoryOf(After(s, actions), id) == HistoryOf(s, id)
  {
    if actions != [] {
      hide Ok, At;
      var before, a := After(s, actions[..|actions| - 1]), actions[|actions| - 1];
      GoneForever(s, actions[..|actions| - 1], id);
      GoneStays(before, a, id);
      StepKeepsOk(before, a);
    }
  }

  lemma TerminalIsGone(s: State, id: TaskId)
    requires Ok(s) && Observed(s, id).Some? && Terminal(Observed(s, id).value.phase) && !Overwriting(s, id)
    ensures At(s, id, Gone)
  {
    assert TaskOk(s, id);
    if s.place[id].AtWorker? {
      assert WorkerOk(s, s.place[id].w);
    }
  }

  lemma LongerHistoryReadsForward(s1: State, s2: State, id: TaskId)
    requires TaskOk(s1, id) && TaskOk(s2, id) && HistoryOf(s1, id) <= HistoryOf(s2, id)
    requires Observed(s1, id).Some? && Terminal(Observed(s1, id).value.phase) && !Overwriting(s1, id) ==>
               HistoryOf(s1, id) == HistoryOf(s2, id)
    ensures ForwardReadings(s1, s2, id)
  {
  }

  /** In every interleaving of clients and workers, whatever dies or loses a reply on the way, a task's
      statuses are written in the order queued, running, one terminal status, which only a lost reply lets
      "failed" follow; so two readings of the same task never go backward, and a terminal reading stays
      unless the worker is about to overwrite it. */
  lemma StatusNeverGoesBack(earlier: seq<Action>, later: seq<Action>, id: TaskId)
    ensures id in After(INITIAL, earlier).history ==>
              var bs := After(INITIAL, earlier).history[id];
              && 1 <= |bs| <= 4 && bs[0].phase.Queued? && (|bs| >= 2 ==> bs[1].phase.Running?)
              && (|bs| >= 3 ==> bs[2].phase.Completed? || bs[2].phase.Failed?)
              && (|bs| == 4 ==> bs[2].phase.Completed? && bs[3].phase.Failed?)
    ensures ForwardReadings(After(INITIAL, earlier), After(INITIAL, earlier + later), id)
  {
    hide After, TaskOk, Ok, Overwriting;
    var s1, s2 := After(INITIAL, earlier), After(INITIAL, earlier + later);
    Reachable(earlier);
    Reachable(earlier + later);
    AfterAppend(INITIAL, earlier, later);
    HistoryGrows(s1, later, id);
    if Observed(s1, id).Some? && Terminal(Observed(s1, id).value.phase) && !Overwriting(s1, id) {
      TerminalIsGone(s1, id);
      GoneForever(s1, later, id);
    }
    OkTask(s1, id);
    OkTask(s2, id);
    LongerHistoryReadsForward(s1, s2, id);
  }

  lemma OkTask(s: State, id: TaskId)
    requires Ok(s)
    ensures TaskOk(s, id) && (id in s.history ==> InOrder(s.history[id]))
  {
  }

  /** The exact condition: a terminal reading is final, whatever happens next, if and only if no worker is
      about to overwrite it. */
  lemma TerminalIsFinalExactly(earlier: seq<Action>, id: TaskId)
    requires var o := Observed(After(INITIAL, earlier), id); o.Some? && Terminal(o.value.phase)
    ensures (forall later: seq<Action> ::
               var o := Observed(After(INITIAL, earlier + later), id);
               o.Some? ==> o == Observed(After(INITIAL, earlier), id))
       <==> !Overwriting(After(INITIAL, earlier), id)
  {
    var s := After(INITIAL, earlier);
    if Overwriting(s, id) {
      var w :| FailsNext(s, w, id) && CompletedOnly(HistoryOf(s, id));
      AfterAppend(INITIAL, earlier, [SetFailed(w)]);
      Reachable(earlier);
      OverwriteShows(s, w, id);
      assert Observed(After(INITIAL, earlier + [SetFailed(w)]), id).Some?;
    } else {
      forall later: seq<Action>
        ensures var o := Observed(After(INITIAL, earlier + later), id); o.Some? ==> o == Observed(s, id)
      {
        StatusNeverGoesBack(earlier, later, id);
      }
    }
  }

  lemma OverwriteShows(s: State, w: ActorId, id: TaskId)
    requires Ok(s) && FailsNext(s, w, id) && CompletedOnly(HistoryOf(s, id))
    ensures var s' := After(s, [SetFailed(w)]);
            && Observed(s', id).Some? && Observed(s', id).value.phase.Failed?
            && (Observed(s, id).Some? ==> Observed(s, id).value.phase.Completed?)
  {
    assert TaskOk(s, id);
    assert [SetFailed(w)][..0] == [];
    assert After(s, [SetFailed(w)]) == Next(After(s, []), SetFailed(w));
  }
}
