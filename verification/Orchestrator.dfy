/** The orchestrator object: registered specialists, one message history per thread kept by the
    checkpointer, and the result envelope of a run. */
module Orchestrator {
  import opened Options
  import opened ToolLoop
  import opened Conversation

  const MAX_ITERATIONS := 6

  /** The tool each known specialist is exposed as. */
  const TOOL_OF: map<string, string> :=
    map["earendil" := "earendil_execute", "finrod" := "finrod_query",
        "tombombadil" := "tombombadil_chat", "rumil" := "rumil_github_audit"]

  /** Tool name to specialist, for the registered specialists that have a tool. */
  function ToolMap(specialists: set<string>): map<string, string> {
    map s | s in specialists && s in TOOL_OF :: TOOL_OF[s] := s
  }

  datatype AgentResult = AgentResult(status: Status, error: Option<string>, intent: Option<string>,
                                     specialistResult: Option<SpecialistResult>, finalText: Option<string>)

  /** The envelope built from the final state of a turn. */
  function Envelope(st: State): AgentResult {
    var status := if st.lastResult.Some? then st.lastResult.value.status
                  else if Truthy(st.error) then Failed
                  else if Truthy(st.finalText) then Completed
                  else Failed;
    var error := if st.lastResult.None? && !Truthy(st.error) && !Truthy(st.finalText)
                 then Some("sauron produced no result") else st.error;
    AgentResult(status,
                if Truthy(error) then error
                else if st.lastResult.Some? then st.lastResult.value.error else None,
                st.intent, st.lastResult, st.finalText)
  }

  /** Without a specialist's answer, a run is reported completed exactly when the model closed with some text
      and no error stands; a failed run gives that error, or says that there was no result. */
  lemma EnvelopeWithoutAnswer(w: World, history: seq<Message>, message: string)
    requires FirstAnswered(AllDispatches(Trace(w, Start(history, message)))).None?
    ensures var end := Turn(w, history, message);
            var r := Envelope(end);
            && r.specialistResult.None? && r.intent.None? && r.finalText == end.finalText
            && (r.status == Completed <==> Truthy(end.finalText) && !Truthy(end.error))
            && (r.status == Failed <==> Truthy(r.error))
            && (Truthy(end.error) ==> r.error == end.error)
            && (r.status == Failed && !Truthy(end.error) ==> r.error == Some("sauron produced no result"))
  {
    var st := Start(history, message);
    IntentIsFirstAnswer(w, st);
    NoFirstNoLast(AllDispatches(Trace(w, st)));
  }

  /** A model call that fails at once ends the run with its reason and leaves the message unanswered. */
  lemma FirstCallFails(w: World, history: seq<Message>, message: string, reason: string)
    requires w.model(0) == CallFailed(reason)
    ensures Envelope(Turn(w, history, message))
         == AgentResult(Failed, Some("anthropic_call_failed: " + reason), None, None, None)
    ensures Turn(w, history, message).messages == history + [UserText(message)]
  {
    assert ("anthropic_call_failed: " + reason)[0] == 'a';
  }

  lemma {:induction false} NoFirstNoLast(ds: seq<Dispatch>)
    ensures FirstAnswered(ds).None? <==> LastAnswered(ds).None?
  {
    if ds != [] {
      var front, last := ds[..|ds| - 1], ds[|ds| - 1];
      assert ds == front + [last];
      FirstAnsweredSnoc(front, last);
      NoFirstNoLast(front);
    }
  }

  /** With a specialist's answer, intent and status are those of a registered specialist that answered; the
      error is the one that stands or else the one the specialist reports. */
  lemma EnvelopeWithAnswer(w: World, history: seq<Message>, message: string)
    requires FirstAnswered(AllDispatches(Trace(w, Start(history, message)))).Some?
    ensures var ds := AllDispatches(Trace(w, Start(history, message)));
            var end := Turn(w, history, message);
            var r := Envelope(end);
            && r.intent == SpecialistFor(w, FirstAnswered(ds).value)
            && LastAnswered(ds).Some? && LastAnswered(ds).value.outcome.Answered?
            && r.specialistResult == Some(LastAnswered(ds).value.outcome.result)
            && r.status == LastAnswered(ds).value.outcome.result.status
            && r.error == (if Truthy(end.error) then end.error else LastAnswered(ds).value.outcome.result.error)
            && r.finalText == end.finalText
  {
    var st := Start(history, message);
    var ds := AllDispatches(Trace(w, st));
    IntentIsFirstAnswer(w, st);
    NoFirstNoLast(ds);
    AnsweredIsAnswered(ds);
  }

  /** The four tools, each offered exactly when its specialist is registered. */
  lemma ToolsExactly(specialists: set<string>, tool: string)
    ensures tool in ToolMap(specialists)
       <==> || (tool == "earendil_execute" && "earendil" in specialists)
            || (tool == "finrod_query" && "finrod" in specialists)
            || (tool == "tombombadil_chat" && "tombombadil" in specialists)
            || (tool == "rumil_github_audit" && "rumil" in specialists)
    ensures tool in ToolMap(specialists) ==>
              ToolMap(specialists)[tool] == match tool
                                            case "earendil_execute" => "earendil"
                                            case "finrod_query" => "finrod"
                                            case "tombombadil_chat" => "tombombadil"
                                            case _ => "rumil"
  {
  }

  /** A run makes at most six model calls, and a round without a failure's text is the last, whatever the model
      answers, exactly when it is the fifth. */
  lemma SixCallsAtMost(specialists: set<string>, model: nat -> Reply, specialist: (nat, nat) -> Outcome,
                       history: seq<Message>, message: string, c: nat)
    ensures var w := World(model, specialist, ToolMap(specialists), MAX_ITERATIONS);
            var t := Trace(w, Start(history, message));
            && Calls(t) <= 6
            && (1 <= c && 2 * c - 1 < |t| && t[2 * c - 1].Round? && !Truthy(LastError(t[2 * c - 1].dispatches)) ==>
                  (LastAfter(w, history, message, c) <==> c >= 5))
  {
    var w := World(model, specialist, ToolMap(specialists), MAX_ITERATIONS);
    hide Trace, Calls, LastAfter, LastError, ToolMap;
    TurnIsBounded(w, history, message);
    var t := Trace(w, Start(history, message));
    if 1 <= c && 2 * c - 1 < |t| && t[2 * c - 1].Round? {
      TurnRoundIsLast(w, history, message, c);
    }
  }

  class Sauron {
    var specialists: set<string>
    var threads: map<string, seq<Message>>
    ghost var log: map<string, seq<Request>>

    /** Every thread's history is that of the requests made on it. */
    ghost predicate Valid()
      reads this
    {
      threads.Keys == log.Keys && forall t :: t in threads ==> threads[t] == History(log[t])
    }

    constructor (specialists: set<string>)
      ensures Valid() && this.specialists == specialists && threads == map[]
    {
      this.specialists := specialists;
      threads, log := map[], map[];
    }

    method Register(specialist: string)
      requires Valid()
      modifies this`specialists
      ensures Valid() && specialists == old(specialists) + {specialist}
    {
      specialists := specialists + {specialist};
    }

    ghost function LogOf(thread: string): seq<Request>
      reads this
    {
      if thread in log then log[thread] else []
    }

    /** One run; `threadId` may be empty, and then the task's own id names the thread. */
    method Run(message: string, threadId: string, taskId: string,
               model: nat -> Reply, specialist: (nat, nat) -> Outcome) returns (r: AgentResult)
      requires Valid()
      modifies this`threads, this`log
      ensures Valid()
      ensures message == "" ==> threads == old(threads) && log == old(log) && r.status == Failed && Truthy(r.error)
      ensures message != "" ==>
                var w := World(model, specialist, ToolMap(specialists), MAX_ITERATIONS);
                var thread := if threadId != "" then threadId else taskId;
                && log == old(log)[thread := old(LogOf(thread)) + [Request(w, message)]]
                && r == Envelope(Turn(w, History(old(LogOf(thread))), message))
    {
      if message == "" {
        return AgentResult(Failed, Some("payload.message is required"), None, None, None);
      }
      var thread := if threadId != "" then threadId else taskId;
      var history := if thread in threads then threads[thread] else [];
      var w := World(model, specialist, ToolMap(specialists), MAX_ITERATIONS);
      var st := RunLoop(w, Start(history, message));
      ghost var rs := LogOf(thread);
      threads := threads[thread := st.messages];
      log := log[thread := rs + [Request(w, message)]];
      assert (rs + [Request(w, message)])[..|rs|] == rs;
      r := Envelope(st);
    }
  }
}
