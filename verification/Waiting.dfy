/** A client waiting for the results of its tasks: poll all statuses, stop when every task is terminal or
    the time is up. */
module Waiting {
  import opened Options
  import opened ShellPolicy
  import opened TaskQueue

  const FAST_PATH_DELAY := 0.5
  const POLL_INTERVAL := 0.5
  const WAIT_TIMEOUT: nat := 15

  /** What a waiting client is told about one task. */
  datatype Row = Row(id: TaskId, phase: Phase, output: Option<string>, error: Option<string>)

  function RowOf(id: TaskId, b: Blob): Row {
    Row(id, b.phase, if b.result.Success? then Some(b.result.output) else None, b.error)
  }

  /** The text of a command error does not reach the row, but a success can be told from an error: a
      completed task shows an output exactly when its command ran and succeeded. */
  lemma OutputShowsSuccess(h: Host, shellAllowed: bool, t: Task, p: Process)
    requires BlankIsSpace(h)
    ensures var r := RowOf(t.id, Execute(h, shellAllowed, t, p));
            && (r.output.Some? <==> r.phase.Completed? && t.command != "" && p.Succeeded?)
            && (r.output.Some? ==> r.output.value == p.output)
            && (r.error.Some? <==> r.phase.Failed?)
  {
    CheckAgreesWithLaunch(h, t.command);
  }

  /** What the environment answers: the status read for the i-th task at the k-th poll, and the clock at
      the start (reading 0) and after each poll. */
  datatype Env = Env(get: (nat, nat) -> Option<Blob>, clock: nat -> real)

  /** Every sleep lasts at least its interval. */
  ghost predicate SleepsLongEnough(e: Env) {
    forall k: nat :: k >= 1 ==> e.clock(k) >= e.clock(0) + FAST_PATH_DELAY + POLL_INTERVAL * ((k - 1) as real)
  }

  /** The rows of one poll: those of the tasks that have a status, in request order. */
  function Rows(e: Env, poll: nat, ids: seq<TaskId>): seq<Row> {
    if ids == [] then []
    else
      var i := |ids| - 1;
      Rows(e, poll, ids[..i]) + if e.get(poll, i).Some? then [RowOf(ids[i], e.get(poll, i).value)] else []
  }

  ghost predicate AllTerminal(e: Env, poll: nat, n: nat) {
    forall i: nat :: i < n ==> e.get(poll, i).Some? && Terminal(e.get(poll, i).value.phase)
  }

  /** A partial answer keeps a row for exactly the tasks that have a status, in request order, and each row
      tells what its status says. */
  lemma {:induction false} RowsExactly(e: Env, poll: nat, ids: seq<TaskId>) returns (idx: seq<nat>)
    ensures |idx| == |Rows(e, poll, ids)| && forall a, b :: 0 <= a < b < |idx| ==> idx[a] < idx[b]
    ensures forall i: nat :: i in idx <==> i < |ids| && e.get(poll, i).Some?
    ensures forall k :: 0 <= k < |idx| ==>
              && idx[k] < |ids| && e.get(poll, idx[k]).Some?
              && var b, row := e.get(poll, idx[k]).value, Rows(e, poll, ids)[k];
              && row.id == ids[idx[k]] && row.phase == b.phase && row.error == b.error
              && row.output == match b.result case Success(output) => Some(output) case _ => None
  {
    idx := [];
    if ids != [] {
      var i := |ids| - 1;
      idx := RowsExactly(e, poll, ids[..i]);
      if e.get(poll, i).Some? {
        idx := idx + [i];
      }
    }
  }

  /** When every task has a status, there is one row for each, in order. */
  lemma {:induction false} AllPresentRows(e: Env, poll: nat, ids: seq<TaskId>)
    requires forall i: nat :: i < |ids| ==> e.get(poll, i).Some?
    ensures |Rows(e, poll, ids)| == |ids|
    ensures forall i :: 0 <= i < |ids| ==> Rows(e, poll, ids)[i] == RowOf(ids[i], e.get(poll, i).value)
  {
    if ids != [] {
      AllPresentRows(e, poll, ids[..|ids| - 1]);
    }
  }

  method ReadAll(e: Env, poll: nat, ids: seq<TaskId>) returns (results: seq<Row>, allDone: bool)
    ensures results == Rows(e, poll, ids)
    ensures allDone <==> AllTerminal(e, poll, |ids|)
  {
    results, allDone := [], true;
    for i := 0 to |ids|
      invariant results == Rows(e, poll, ids[..i])
      invariant allDone <==> AllTerminal(e, poll, i)
    {
      assert ids[..i + 1][..i] == ids[..i];
      var raw := e.get(poll, i);
      if raw.None? {
        allDone := false;
      } else {
        results := results + [RowOf(ids[i], raw.value)];
        if !(raw.value.phase.Completed? || raw.value.phase.Failed?) {
          allDone := false;
        }
      }
    }
    assert ids[..|ids|] == ids;
  }

  /** The most polls there can be. */
  function MaxPolls(timeout: int): nat {
    if timeout < 0 then 1 else 2 * timeout + 1
  }

  lemma TimeIsUp(e: Env, timeout: int, k: nat)
    requires SleepsLongEnough(e)
    ensures k + 1 >= MaxPolls(timeout) ==> e.clock(k + 1) - e.clock(0) > timeout as real
  {
    assert e.clock(k + 1) >= e.clock(0) + FAST_PATH_DELAY + POLL_INTERVAL * (k as real);
    if timeout >= 0 && k + 1 >= MaxPolls(timeout) {
      assert k as real >= 2.0 * timeout as real;
    }
  }

  /** It reports completed exactly when every task asked for is terminal at its last poll, which is the
      first such poll, and then there is one terminal row per task in request order; otherwise the time was
      up.  It ends within `MaxPolls` polls. */
  method WaitForTasks(e: Env, ids: seq<TaskId>, timeout: int) returns (completed: bool, results: seq<Row>, polls: nat)
    requires SleepsLongEnough(e)
    ensures 1 <= polls && (timeout < 0 ==> polls == 1) && (timeout >= 0 ==> polls <= 2 * timeout + 1)
    ensures results == Rows(e, polls - 1, ids)
    ensures completed <==> AllTerminal(e, polls - 1, |ids|)
    ensures forall k: nat :: k < polls - 1 ==> !AllTerminal(e, k, |ids|)
    ensures completed ==> |results| == |ids| && forall i :: 0 <= i < |ids| ==>
              results[i].id == ids[i] && Terminal(results[i].phase)
    ensures !completed ==> e.clock(polls) - e.clock(0) > timeout as real
  {
    polls := 0;
    while true
      invariant polls < MaxPolls(timeout)
      invariant forall k: nat :: k < polls ==> !AllTerminal(e, k, |ids|)
      decreases MaxPolls(timeout) - polls
    {
      var allDone: bool;
      results, allDone := ReadAll(e, polls, ids);
      polls := polls + 1;
      if allDone && |results| == |ids| {
        AllPresentRows(e, polls - 1, ids);
        return true, results, polls;
      }
      if allDone {
        AllPresentRows(e, polls - 1, ids);
      }
      TimeIsUp(e, timeout, polls - 1);
      if e.clock(polls) - e.clock(0) > timeout as real {
        return false, results, polls;
      }
    }
  }

  /** With the default timings every sleep lasts at least half a second and there are at most 31 polls; when
      each lasts just that there are as many: the time is not up before the last. */
  lemma DefaultIsThirtyOnePolls(e: Env)
    ensures MaxPolls(WAIT_TIMEOUT) == 31
    ensures SleepsLongEnough(e) <==> forall k: nat :: k >= 1 ==> e.clock(k) >= e.clock(0) + 0.5 * k as real
    ensures (forall k: nat :: e.clock(k) == 0.5 * k as real) ==>
              forall k: nat :: e.clock(k) - e.clock(0) > WAIT_TIMEOUT as real <==> k >= 31
  {
  }

  /** What the environment may answer when the statuses are read from the running system: each read is made
      in some reachable state, later reads in later states. */
  ghost predicate ReadsFrom(e: Env, actions: seq<Action>, ids: seq<TaskId>, time: (nat, nat) -> nat) {
    forall k: nat, i: nat :: i < |ids| && time(k, i) <= |actions| ==>
      e.get(k, i) == Observed(After(INITIAL, actions[..time(k, i)]), ids[i])
  }

  /** A row reported with a terminal status is what any later reader finds while the key lives, unless it says
      completed and its worker, having lost the reply to that write, was about to overwrite it. */
  lemma ReportedRowsStayTrue(e: Env, actions: seq<Action>, ids: seq<TaskId>, time: (nat, nat) -> nat, poll: nat,
                             i: nat, now: nat)
    requires ReadsFrom(e, actions, ids, time) && i < |ids| && time(poll, i) <= now <= |actions|
    requires e.get(poll, i).Some? && Terminal(e.get(poll, i).value.phase)
    ensures var later := Observed(After(INITIAL, actions[..now]), ids[i]);
            later.Some? ==>
              && Terminal(later.value.phase)
              && (Overwriting(After(INITIAL, actions[..time(poll, i)]), ids[i])
                  || RowOf(ids[i], later.value) == RowOf(ids[i], e.get(poll, i).value))
  {
    var earlier := actions[..time(poll, i)];
    assert e.get(poll, i) == Observed(After(INITIAL, earlier), ids[i]);
    assert actions[..now] == earlier + actions[time(poll, i)..now];
    hide Overwriting, After;
    StatusNeverGoesBack(earlier, actions[time(poll, i)..now], ids[i]);
  }
}
