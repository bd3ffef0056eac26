/** What holds of every turn of the tool loop, and of every conversation of many turns on one thread. */
module Conversation {
  import opened Options
  import opened ToolLoop

  // ---- The trace of a turn.

  /** A model call, or a round of dispatches. */
  datatype Event = Call | Round(dispatches: seq<Dispatch>)

  function Trace(w: World, st: State): seq<Event>
    decreases Fuel(w, st)
  {
    var asked := AgentStep(w, st);
    if Continues(w, asked) then [Call, Round(Dispatches(w, asked))] + Trace(w, DispatchStep(w, asked)) else [Call]
  }

  function AllDispatches(trace: seq<Event>): seq<Dispatch> {
    if trace == [] then []
    else (if trace[0].Round? then trace[0].dispatches else []) + AllDispatches(trace[1..])
  }

  function Calls(trace: seq<Event>): nat {
    if trace == [] then 0 else (if trace[0].Call? then 1 else 0) + Calls(trace[1..])
  }

  lemma TraceUnfolds(w: World, st: State)
    requires Continues(w, AgentStep(w, st))
    ensures var asked := AgentStep(w, st);
            var rest := Trace(w, DispatchStep(w, asked));
            && Trace(w, st)[0] == Call && Trace(w, st)[1] == Round(Dispatches(w, asked))
            && Trace(w, st)[2..] == rest && Trace(w, st)[1..][1..] == rest
            && Calls(Trace(w, st)) == 1 + Calls(rest)
            && AllDispatches(Trace(w, st)) == Dispatches(w, asked) + AllDispatches(rest)
  {
    var t := Trace(w, st);
    assert t[1..][1..] == t[2..] == Trace(w, DispatchStep(w, AgentStep(w, st)));
    assert AllDispatches(t[1..]) == t[1].dispatches + AllDispatches(t[1..][1..]);
  }

  /** Calls and rounds alternate, beginning and ending with a call; the final state counts the calls; and
      there are at most `maxIterations` of them (one, should the limit not be positive). */
  lemma {:induction false} LoopIsBounded(w: World, st: State)
    ensures var t := Trace(w, st);
            && |t| == 2 * Calls(t) - 1
            && (forall i :: 0 <= i < |t| ==> (t[i].Call? <==> i % 2 == 0))
            && Loop(w, st).iterations == st.iterations + Calls(t)
            && 1 <= Calls(t)
            && Calls(t) <= (if st.iterations < w.maxIterations then w.maxIterations - st.iterations else 1)
    decreases Fuel(w, st)
  {
    var asked := AgentStep(w, st);
    if Continues(w, asked) {
      var next := DispatchStep(w, asked);
      LoopIsBounded(w, next);
      TraceUnfolds(w, st);
      var t, rest := Trace(w, st), Trace(w, next);
      forall i | 0 <= i < |t|
        ensures t[i].Call? <==> i % 2 == 0
      {
        if i >= 2 {
          assert t[i] == t[2..][i - 2];
        }
      }
    }
  }

  /** The exact condition, known before the next call of the model: a round is the last, whatever the model
      may answer next, if and only if its last failure has a text or the iteration limit is met. */
  lemma RoundIsLastExactly(w: World, st: State)
    ensures (forall model: nat -> Reply :: Trace(w.(model := model), DispatchStep(w, st)) == [Call])
       <==> Truthy(LastError(Dispatches(w, st))) || st.iterations + 1 >= w.maxIterations
  {
    var next := DispatchStep(w, st);
    if Truthy(LastError(Dispatches(w, st))) || st.iterations + 1 >= w.maxIterations {
      forall model: nat -> Reply
        ensures Trace(w.(model := model), next) == [Call]
      {
        assert !Continues(w.(model := model), AgentStep(w.(model := model), next));
      }
    } else {
      InsistingGoesOn(w, st);
      assert |Trace(w.(model := Insisting(w.model, st.iterations)), next)| > 1;
    }
  }

  /** A model that from its k-th call on asks for a tool. */
  function Insisting(model: nat -> Reply, k: nat): nat -> Reply {
    (n: nat) => if n < k then model(n) else Response([Use(ToolUse("u", "again", ""))])
  }

  lemma InsistingGoesOn(w: World, st: State)
    requires !Truthy(LastError(Dispatches(w, st))) && st.iterations + 1 < w.maxIterations
    ensures |Trace(w.(model := Insisting(w.model, st.iterations)), DispatchStep(w, st))| > 1
  {
    var insistent, next := w.(model := Insisting(w.model, st.iterations)), DispatchStep(w, st);
    var blocks := [Use(ToolUse("u", "again", ""))];
    assert blocks[..0] == [] && Uses(blocks) == [ToolUse("u", "again", "")];
    assert Continues(insistent, AgentStep(insistent, next));
  }

  /** Two models that answer the first k calls alike. */
  ghost predicate AgreeUntil(a: nat -> Reply, b: nat -> Reply, k: nat) {
    forall n: nat :: n < k ==> a(n) == b(n)
  }

  lemma SameFirstRound(w: World, model: nat -> Reply, st: State)
    requires Continues(w, AgentStep(w, st)) && model(st.iterations) == w.model(st.iterations)
    ensures |Trace(w.(model := model), st)| == 2 + |Trace(w.(model := model), DispatchStep(w, AgentStep(w, st)))|
  {
    var v, asked := w.(model := model), AgentStep(w, st);
    assert AgentStep(v, st) == asked && Dispatches(v, asked) == Dispatches(w, asked);
  }

  /** The same for any round of a turn: whatever the model may answer from then on, the turn ends with one
      more call if and only if the last failure of the round has a text or the limit is met. */
  lemma {:induction false} ErrorEndsTheLoop(w: World, st: State, i: nat)
    requires i < |Trace(w, st)| && Trace(w, st)[i].Round?
    ensures (forall model: nat -> Reply :: AgreeUntil(w.model, model, st.iterations + (i + 1) / 2) ==>
               |Trace(w.(model := model), st)| == i + 2)
       <==> || Truthy(LastError(Trace(w, st)[i].dispatches))
            || st.iterations + (i + 1) / 2 + 1 >= w.maxIterations
    decreases Fuel(w, st)
  {
    var asked := AgentStep(w, st);
    assert Continues(w, asked);
    TraceUnfolds(w, st);
    var next, calls := DispatchStep(w, asked), st.iterations + (i + 1) / 2;
    forall model: nat -> Reply | AgreeUntil(w.model, model, calls)
      ensures |Trace(w.(model := model), st)| == 2 + |Trace(w.(model := model), next)|
    {
      SameFirstRound(w, model, st);
    }
    if i >= 2 {
      assert Trace(w, st)[i] == Trace(w, st)[2..][i - 2];
      ErrorEndsTheLoop(w, next, i - 2);
      assert next.iterations + (i - 1) / 2 == calls;
    } else {
      FirstRoundIsLast(w, st);
    }
  }

  lemma FirstRoundIsLast(w: World, st: State)
    requires Continues(w, AgentStep(w, st))
    ensures (forall model: nat -> Reply :: AgreeUntil(w.model, model, st.iterations + 1) ==>
               |Trace(w.(model := model), DispatchStep(w, AgentStep(w, st)))| == 1)
       <==> Truthy(LastError(Dispatches(w, AgentStep(w, st)))) || st.iterations + 2 >= w.maxIterations
  {
    var asked := AgentStep(w, st);
    RoundIsLastExactly(w, asked);
    if !Truthy(LastError(Dispatches(w, asked))) && st.iterations + 2 < w.maxIterations {
      InsistingGoesOn(w, asked);
      assert AgreeUntil(w.model, Insisting(w.model, asked.iterations), st.iterations + 1);
    }
  }

  /** A turn makes at least one model call and at most `maxIterations`. */
  lemma TurnIsBounded(w: World, history: seq<Message>, message: string)
    requires w.maxIterations >= 1
    ensures var t := Trace(w, Start(history, message));
            1 <= Calls(t) <= w.maxIterations && |t| == 2 * Calls(t) - 1
  {
    hide Trace, Calls;
    LoopIsBounded(w, Start(history, message));
  }

  /** The turn is as it was up to its c-th call, and whatever the model answers from then on it makes one more
      call and ends. */
  ghost predicate LastAfter(w: World, history: seq<Message>, message: string, c: nat) {
    forall model: nat -> Reply :: AgreeUntil(w.model, model, c) ==>
      |Trace(w.(model := model), Start(history, message))| == 2 * c + 1
  }

  /** The round after the c-th call of a turn is the last if and only if its last failure has a text or only
      one call is left. */
  lemma TurnRoundIsLast(w: World, history: seq<Message>, message: string, c: nat)
    requires 1 <= c && 2 * c - 1 < |Trace(w, Start(history, message))|
    requires Trace(w, Start(history, message))[2 * c - 1].Round?
    ensures LastAfter(w, history, message, c)
       <==> || Truthy(LastError(Trace(w, Start(history, message))[2 * c - 1].dispatches))
            || c + 1 >= w.maxIterations
  {
    var st := Start(history, message);
    hide Trace, LastError;
    ErrorEndsTheLoop(w, st, 2 * c - 1);
    assert st.iterations + (2 * c - 1 + 1) / 2 == c;
  }

  /** A failure without text does not stop the loop: this tool fails silently and is asked again. */
  function SilentWorld(): World {
    World(n => Response([Use(ToolUse("u", "finrod_query", ""))]), (r, k) => Raised(""),
          map["finrod_query" := "finrod"], 3)
  }

  lemma SilentFailureIsRetried()
    ensures var t := Trace(SilentWorld(), Start([], "hi"));
            |t| == 5 && t[1].Round? && t[1].dispatches[0].outcome.Raised? && t[3].Round?
  {
    var w := SilentWorld();
    var s0 := Start([], "hi");
    var blocks := [Use(ToolUse("u", "finrod_query", ""))];
    assert blocks[..0] == [];
    assert Uses(blocks) == [ToolUse("u", "finrod_query", "")];
    var a1 := AgentStep(w, s0);
    var s1 := DispatchStep(w, a1);
    assert Dispatches(w, a1)[0].outcome == Raised("");
    assert LastError(Dispatches(w, a1)) == Some("");
    var a2 := AgentStep(w, s1);
    assert Continues(w, a2);
    var s2 := DispatchStep(w, a2);
    assert Dispatches(w, a2)[0].outcome == Raised("");
    assert LastError(Dispatches(w, a2)) == Some("");
    assert Trace(w, s2) == [Call];
    assert Trace(w, s1) == [Call, Round(Dispatches(w, a2))] + [Call];
  }

  /** Two rounds one after the other leave what one round of all their dispatches would. */
  lemma RoundsCompose(w: World, intent: Option<string>, result: Option<SpecialistResult>, ds: seq<Dispatch>,
                      rest: seq<Dispatch>)
    requires forall d :: d in ds && d.outcome.Answered? ==> d.use.name in w.tools
    ensures IntentAfter(w, IntentAfter(w, intent, ds), rest) == IntentAfter(w, intent, ds + rest)
    ensures ResultAfter(ResultAfter(result, ds), rest) == ResultAfter(result, ds + rest)
  {
    FirstAnsweredAppend(ds, rest);
    LastAnsweredAppend(ds, rest);
    AnsweredIsAnswered(rest);
    AnsweredIsAnswered(ds);
    hide FirstAnswered, LastAnswered;
  }

  /** The turn's intent is the specialist of the first answered dispatch, and its result the last answer. */
  lemma {:induction false} IntentIsFirstAnswer(w: World, st: State)
    ensures Loop(w, st).intent == IntentAfter(w, st.intent, AllDispatches(Trace(w, st)))
    ensures Loop(w, st).lastResult == ResultAfter(st.lastResult, AllDispatches(Trace(w, st)))
    decreases Fuel(w, st)
  {
    var asked := AgentStep(w, st);
    if Continues(w, asked) {
      var next := DispatchStep(w, asked);
      var ds := Dispatches(w, asked);
      IntentIsFirstAnswer(w, next);
      TraceUnfolds(w, st);
      AnsweredHasSpecialist(w, asked, |ds|);
      hide Trace, AllDispatches, AgentStep, Dispatches, IntentAfter, ResultAfter;
      assert ds[..|ds|] == ds;
      RoundsCompose(w, asked.intent, asked.lastResult, ds, AllDispatches(Trace(w, next)));
      AskingKeepsAnswers(w, st);
    } else {
      assert Trace(w, st)[1..] == [];
      assert AllDispatches(Trace(w, st)) == [];
    }
  }

  lemma AskingKeepsAnswers(w: World, st: State)
    ensures AgentStep(w, st).intent == st.intent && AgentStep(w, st).lastResult == st.lastResult
  {
  }

  // ---- What the turn says, and what the model is told.

  /** The last text in some messages of the assistant. */
  function LastSpoken(h: seq<Message>, before: Option<string>): Option<string> {
    if h == [] then before
    else if h[|h| - 1].Assistant? then LastText(h[|h| - 1].blocks, LastSpoken(h[..|h| - 1], before))
    else LastSpoken(h[..|h| - 1], before)
  }

  /** The contents of the tool-result messages, in order. */
  function ToldResults(h: seq<Message>): seq<seq<ResultBlock>> {
    if h == [] then []
    else ToldResults(h[..|h| - 1]) + if h[|h| - 1].ToolResults? then [h[|h| - 1].results] else []
  }

  /** The results of the rounds of a trace, in order. */
  function RoundResults(trace: seq<Event>): seq<seq<ResultBlock>> {
    if trace == [] then []
    else (if trace[0].Round? then [ResultsOf(trace[0].dispatches)] else []) + RoundResults(trace[1..])
  }

  lemma {:induction false} DroppedBlocksSayNothing(blocks: seq<Block>, before: Option<string>)
    ensures LastText(Kept(blocks), before) == LastText(blocks, before)
    decreases |blocks|
  {
    if blocks != [] {
      var front, last := blocks[..|blocks| - 1], blocks[|blocks| - 1];
      DroppedBlocksSayNothing(front, before);
      if last.Other? {
        assert Kept(blocks) == Kept(front);
      } else {
        assert Kept(blocks) == Kept(front) + [last];
        assert Kept(blocks)[..|Kept(blocks)| - 1] == Kept(front);
      }
    }
  }

  lemma SpokenAndToldSnoc(h: seq<Message>, m: Message)
    ensures LastSpoken(h + [m], None)
         == if m.Assistant? then LastText(m.blocks, LastSpoken(h, None)) else LastSpoken(h, None)
    ensures ToldResults(h + [m]) == ToldResults(h) + if m.ToolResults? then [m.results] else []
  {
    assert (h + [m])[..|h|] == h;
  }

  /** The final text so far is the last one spoken since message `b`. */
  predicate Speaks(st: State, b: nat) {
    b <= |st.messages| && LastSpoken(st.messages[b..], None) == st.finalText
  }

  /** The results told since message `b`. */
  function ToldSince(st: State, b: nat): seq<seq<ResultBlock>> {
    if b <= |st.messages| then ToldResults(st.messages[b..]) else []
  }

  lemma AskSpeaks(w: World, st: State, b: nat)
    requires Speaks(st, b)
    ensures Speaks(AgentStep(w, st), b)
    ensures ToldSince(AgentStep(w, st), b) == ToldSince(st, b)
  {
    var asked, reply := AgentStep(w, st), w.model(st.iterations);
    if reply.Response? {
      assert asked.messages[b..] == st.messages[b..] + [Assistant(Kept(reply.blocks))];
      SpokenAndToldSnoc(st.messages[b..], Assistant(Kept(reply.blocks)));
      DroppedBlocksSayNothing(reply.blocks, st.finalText);
    }
  }

  lemma DispatchTells(w: World, st: State, b: nat)
    requires Speaks(st, b)
    ensures Speaks(DispatchStep(w, st), b)
    ensures ToldSince(DispatchStep(w, st), b) == ToldSince(st, b) + [ResultsOf(Dispatches(w, st))]
  {
    var m := ToolResults(ResultsOf(Dispatches(w, st)));
    assert DispatchStep(w, st).messages[b..] == st.messages[b..] + [m];
    SpokenAndToldSnoc(st.messages[b..], m);
  }

  lemma {:induction false} TurnSpeaksAndTells(w: World, st: State, b: nat)
    requires Speaks(st, b)
    ensures Speaks(Loop(w, st), b)
    ensures ToldSince(Loop(w, st), b) == ToldSince(st, b) + RoundResults(Trace(w, st))
    decreases Fuel(w, st)
  {
    hide AgentStep, DispatchStep, Speaks, Trace, RoundResults, ToldSince, Dispatches, ResultsOf;
    var asked := AgentStep(w, st);
    AskSpeaks(w, st, b);
    StepsCount(w, st);
    if Continues(w, asked) {
      var next := DispatchStep(w, asked);
      DispatchTells(w, asked, b);
      RoundResultsUnfold(w, st);
      TurnSpeaksAndTells(w, next, b);
      var told, now, rest := ToldSince(st, b), [ResultsOf(Dispatches(w, asked))], RoundResults(Trace(w, next));
      assert (told + now) + rest == told + (now + rest);
    } else {
      NoRounds(w, st);
    }
  }

  lemma NoRounds(w: World, st: State)
    requires !Continues(w, AgentStep(w, st))
    ensures RoundResults(Trace(w, st)) == []
  {
    assert Trace(w, st)[1..] == [];
  }

  /** The final text of a turn is the last one the assistant spoke in it, and the model is told the outcome
      of every dispatched tool, round by round. */
  lemma TurnIsReported(w: World, history: seq<Message>, message: string)
    ensures var end := Turn(w, history, message); var b := |history|;
            && b <= |end.messages| && LastSpoken(end.messages[b..], None) == end.finalText
            && ToldResults(end.messages[b..]) == RoundResults(Trace(w, Start(history, message)))
  {
    var st := Start(history, message);
    assert st.messages[|history|..] == [UserText(message)];
    assert [UserText(message)][..0] == [];
    assert LastSpoken([UserText(message)], None) == None && ToldResults([UserText(message)]) == [];
    assert Speaks(st, |history|);
    TurnSpeaksAndTells(w, st, |history|);
  }

  lemma RoundResultsUnfold(w: World, st: State)
    requires Continues(w, AgentStep(w, st))
    ensures var asked := AgentStep(w, st);
            RoundResults(Trace(w, st))
            == [ResultsOf(Dispatches(w, asked))] + RoundResults(Trace(w, DispatchStep(w, asked)))
  {
    TraceUnfolds(w, st);
    var t := Trace(w, st);
    assert RoundResults(t) == RoundResults(t[1..]);
    assert RoundResults(t[1..]) == [ResultsOf(t[1].dispatches)] + RoundResults(t[1..][1..]);
  }

  // ---- The message history.

  predicate FromUser(m: Message) {
    !m.Assistant?
  }

  function Ids(us: seq<ToolUse>): seq<string> {
    seq(|us|, k requires 0 <= k < |us| => us[k].id)
  }

  function UseIds(m: Message): seq<string> {
    if m.Assistant? then Ids(Uses(m.blocks)) else []
  }

  function Last(h: seq<Message>): Message
    requires h != []
  {
    h[|h| - 1]
  }

  function ResultIds(m: Message): seq<string> {
    if m.ToolResults? then seq(|m.results|, k requires 0 <= k < |m.results| => m.results[k].useId) else []
  }

  /** The i-th message, if it holds tool results, answers exactly the tool uses just before it, in order. */
  predicate Fits(h: seq<Message>, i: nat)
    requires i < |h|
  {
    h[i].ToolResults? ==> i > 0 && h[i - 1].Assistant? && UseIds(h[i - 1]) != [] && ResultIds(h[i]) == UseIds(h[i - 1])
  }

  /** The i-th message asks for tools and the next one does not answer. */
  predicate Unanswered(h: seq<Message>, i: nat)
    requires i < |h|
  {
    UseIds(h[i]) != [] && !(i + 1 < |h| && h[i + 1].ToolResults?)
  }

  ghost predicate Alternates(h: seq<Message>, from: nat) {
    forall i :: from < i < |h| ==> (FromUser(h[i]) <==> !FromUser(h[i - 1]))
  }

  /** The part of a history from `b` on is the beginning of one turn: it opens with the user's text,
      alternates, answers every tool use but perhaps the last, and holds no other user text. */
  ghost predicate TurnFrom(h: seq<Message>, b: nat) {
    && b < |h| && h[b].UserText?
    && Alternates(h, b)
    && (forall i :: b < i < |h| ==> Fits(h, i))
    && (forall i :: b <= i < |h| - 1 ==> !Unanswered(h, i))
  }

  lemma KeptUses(blocks: seq<Block>)
    ensures Uses(Kept(blocks)) == Uses(blocks)
    decreases |blocks|
  {
    if blocks != [] {
      var front, last := blocks[..|blocks| - 1], blocks[|blocks| - 1];
      KeptUses(front);
      if last.Other? {
        assert Kept(blocks) == Kept(front);
      } else {
        assert Kept(blocks) == Kept(front) + [last];
        assert Kept(blocks)[..|Kept(blocks)| - 1] == Kept(front);
      }
    }
  }

  lemma TurnGrows(h: seq<Message>, m: Message, b: nat)
    requires TurnFrom(h, b) && (FromUser(m) <==> !FromUser(Last(h)))
    requires Fits(h + [m], |h|) && (UseIds(Last(h)) != [] ==> m.ToolResults?)
    ensures TurnFrom(h + [m], b)
  {
    var h' := h + [m];
    assert forall i :: 0 <= i < |h| ==> h'[i] == h[i];
    forall i | b <= i < |h'| - 1
      ensures !Unanswered(h', i)
    {
      if i < |h| - 1 {
        assert !Unanswered(h, i);
      }
    }
    forall i | b < i < |h'|
      ensures Fits(h', i)
    {
      if i < |h| {
        assert Fits(h, i);
      }
    }
  }

  /** The state in which the agent node is entered. */
  ghost predicate Ready(st: State, b: nat) {
    TurnFrom(st.messages, b) && FromUser(Last(st.messages)) && st.pending == []
  }

  /** The state in which the agent node is left: what is pending is what the last message asks for; no
      assistant message is there only if the call failed. */
  ghost predicate Asked(st: State, b: nat) {
    && TurnFrom(st.messages, b)
    && UseIds(Last(st.messages)) == Ids(st.pending)
    && (FromUser(Last(st.messages)) ==> Truthy(st.error))
  }

  lemma AskKeepsTurn(w: World, st: State, b: nat)
    requires Ready(st, b)
    ensures Asked(AgentStep(w, st), b) && st.messages <= AgentStep(w, st).messages
  {
    var reply := w.model(st.iterations);
    if reply.Response? {
      KeptUses(reply.blocks);
      TurnGrows(st.messages, Assistant(Kept(reply.blocks)), b);
    }
  }

  lemma DispatchKeepsTurn(w: World, st: State, b: nat)
    requires Asked(st, b) && st.pending != []
    ensures Ready(DispatchStep(w, st), b) && st.messages <= DispatchStep(w, st).messages
  {
    var m := ToolResults(ResultsOf(Dispatches(w, st)));
    assert ResultIds(m) == Ids(st.pending);
    TurnGrows(st.messages, m, b);
  }

  /** How a turn ended: without a standing error and without tools still asked for. */
  predicate Clean(st: State) {
    !Truthy(st.error) && st.pending == []
  }

  /** A turn appends one well-formed stretch of messages; ended cleanly, it closes with an assistant
      message that asks for nothing. */
  lemma {:induction false} LoopKeepsTurn(w: World, st: State, b: nat)
    requires Ready(st, b)
    ensures Asked(Loop(w, st), b) && st.messages <= Loop(w, st).messages
    decreases Fuel(w, st)
  {
    hide AgentStep, DispatchStep, TurnFrom;
    var asked := AgentStep(w, st);
    AskKeepsTurn(w, st, b);
    if Continues(w, asked) {
      DispatchKeepsTurn(w, asked, b);
      StepsCount(w, st);
      LoopKeepsTurn(w, DispatchStep(w, asked), b);
    }
  }

  lemma StepsCount(w: World, st: State)
    ensures DispatchStep(w, AgentStep(w, st)).iterations == AgentStep(w, st).iterations == st.iterations + 1
  {
  }

  lemma TurnAppends(w: World, history: seq<Message>, message: string)
    ensures var end := Turn(w, history, message);
            Asked(end, |history|) && history + [UserText(message)] <= end.messages
  {
    LoopKeepsTurn(w, Start(history, message), |history|);
  }

  // ---- Conversations.

  /** One call of the orchestrator on a thread, in its world. */
  datatype Request = Request(world: World, message: string)

  /** The history of a thread after some requests; an empty message is refused before the loop. */
  function History(rs: seq<Request>): seq<Message> {
    if rs == [] then []
    else Extended(History(rs[..|rs| - 1]), rs[|rs| - 1])
  }

  function Extended(h: seq<Message>, r: Request): seq<Message> {
    if r.message == "" then h else Turn(r.world, h, r.message).messages
  }

  predicate EndsCleanly(h: seq<Message>, r: Request) {
    r.message == "" || Clean(Turn(r.world, h, r.message))
  }

  predicate LeavesPending(h: seq<Message>, r: Request) {
    r.message != "" && Turn(r.world, h, r.message).pending != []
  }

  /** Turn `k` ended with tools still asked for, and message `i` is its last one. */
  predicate PendingAt(rs: seq<Request>, k: nat, i: nat) {
    k < |rs| && LeavesPending(History(rs[..k]), rs[k]) && i == |History(rs[..k + 1])| - 1
  }

  ghost predicate ClosesPendingTurn(rs: seq<Request>, i: nat) {
    exists k :: PendingAt(rs, k, i)
  }

  lemma {:induction false} HistoryGrows(rs: seq<Request>, k: nat)
    requires k <= |rs|
    ensures History(rs[..k]) <= History(rs)
  {
    if k < |rs| {
      var front := rs[..|rs| - 1];
      HistoryGrows(front, k);
      assert front[..k] == rs[..k];
      var r := rs[|rs| - 1];
      TurnAppends(r.world, History(front), r.message);
    } else {
      assert rs[..k] == rs;
    }
  }

  lemma PendingAtEarlier(rs: seq<Request>, r: Request, k: nat, i: nat)
    requires k < |rs|
    ensures PendingAt(rs + [r], k, i) <==> PendingAt(rs, k, i)
  {
    assert (rs + [r])[..k] == rs[..k] && (rs + [r])[..k + 1] == rs[..k + 1];
  }

  lemma PendingAtLast(rs: seq<Request>, r: Request, i: nat)
    ensures PendingAt(rs + [r], |rs|, i) <==> LeavesPending(History(rs), r) && i == |History(rs + [r])| - 1
  {
    assert (rs + [r])[..|rs|] == rs && (rs + [r])[..|rs| + 1] == rs + [r];
  }

  /** One more request adds one more turn that may have closed with tools pending. */
  lemma OneMoreTurn(rs: seq<Request>, r: Request, i: nat)
    ensures ClosesPendingTurn(rs + [r], i)
       <==> ClosesPendingTurn(rs, i) || (LeavesPending(History(rs), r) && i == |History(rs + [r])| - 1)
  {
    PendingAtLast(rs, r, i);
    forall k: nat | k < |rs|
      ensures PendingAt(rs + [r], k, i) <==> PendingAt(rs, k, i)
    {
      PendingAtEarlier(rs, r, k, i);
    }
    assert forall k: nat :: PendingAt(rs + [r], k, i) ==> k < |rs| || k == |rs|;
    hide LeavesPending, History;
    if ClosesPendingTurn(rs, i) {
      var k :| PendingAt(rs, k, i);
      assert PendingAt(rs + [r], k, i);
    }
  }

  /** A turn's messages put after a history change nothing in it: what was answered stays answered, and
      what was not is not answered later. */
  lemma JoinedTurn(h: seq<Message>, h': seq<Message>)
    requires h <= h' && TurnFrom(h', |h|)
    requires forall i :: 0 <= i < |h| ==> Fits(h, i)
    ensures forall i :: 0 <= i < |h'| ==> Fits(h', i)
    ensures forall i :: 0 <= i < |h'| - 1 ==> (Unanswered(h', i) <==> i < |h| && Unanswered(h, i))
    ensures Alternates(h, 0) && (h != [] ==> !FromUser(Last(h))) ==> Alternates(h', 0)
  {
    assert forall i :: 0 <= i < |h| ==> h'[i] == h[i];
    forall i | 0 <= i < |h'|
      ensures Fits(h', i)
    {
      if i < |h| {
        assert Fits(h, i);
      }
    }
  }

  /** Whatever the model and the specialists do over any number of turns: every tool-result message
      answers exactly the tool uses just before it, and a message's tool uses are left unanswered exactly
      when it closes a turn that ended with tools pending. */
  lemma {:induction false} ResultsAnswerUses(rs: seq<Request>)
    ensures forall i :: 0 <= i < |History(rs)| ==> Fits(History(rs), i)
    ensures forall i :: 0 <= i < |History(rs)| ==> (Unanswered(History(rs), i) <==> ClosesPendingTurn(rs, i))
  {
    if rs != [] {
      var front, r := rs[..|rs| - 1], rs[|rs| - 1];
      ResultsAnswerUses(front);
      assert rs == front + [r];
      RequestKeepsFit(front, r);
    }
  }

  lemma RequestKeepsFit(rs: seq<Request>, r: Request)
    requires forall i :: 0 <= i < |History(rs)| ==> Fits(History(rs), i)
    requires forall i :: 0 <= i < |History(rs)| ==> (Unanswered(History(rs), i) <==> ClosesPendingTurn(rs, i))
    ensures forall i :: 0 <= i < |History(rs + [r])| ==> Fits(History(rs + [r]), i)
    ensures forall i :: 0 <= i < |History(rs + [r])|
                        ==> (Unanswered(History(rs + [r]), i) <==> ClosesPendingTurn(rs + [r], i))
  {
    var h, h' := History(rs), History(rs + [r]);
    assert (rs + [r])[..|rs|] == rs;
    ExtendedFits(h, r);
    hide Fits, ClosesPendingTurn, Unanswered, LeavesPending, Extended;
    forall i | 0 <= i < |h'|
      ensures Unanswered(h', i) <==> ClosesPendingTurn(rs + [r], i)
    {
      OneMoreTurn(rs, r, i);
      if i >= |h| {
        PendingTurnsAreInside(rs, i);
      }
    }
  }

  lemma TurnFits(h: seq<Message>, end: State)
    requires Asked(end, |h|) && h <= end.messages && |h| < |end.messages|
    requires forall i :: 0 <= i < |h| ==> Fits(h, i)
    ensures var h' := end.messages;
            && (forall i :: 0 <= i < |h'| ==> Fits(h', i))
            && (forall i :: 0 <= i < |h'| ==>
                  (Unanswered(h', i) <==> (i < |h| && Unanswered(h, i)) || (i == |h'| - 1 && end.pending != [])))
  {
    PendingIsUnanswered(end, |h|);
    assert TurnFrom(end.messages, |h|);
    hide Asked, TurnFrom, Fits, Unanswered, Alternates;
    JoinedTurn(h, end.messages);
  }

  lemma ExtendedFits(h: seq<Message>, r: Request)
    requires forall i :: 0 <= i < |h| ==> Fits(h, i)
    ensures var h' := Extended(h, r);
            && |h| <= |h'| && (LeavesPending(h, r) ==> |h| < |h'|)
            && (forall i :: 0 <= i < |h'| ==> Fits(h', i))
            && (forall i :: 0 <= i < |h'| ==>
                  (Unanswered(h', i) <==> (i < |h| && Unanswered(h, i)) || (i == |h'| - 1 && LeavesPending(h, r))))
  {
    hide Turn, Asked, TurnFrom, Fits, Unanswered;
    if r.message != "" {
      TurnAppends(r.world, h, r.message);
      TurnFits(h, Turn(r.world, h, r.message));
    }
  }

  lemma PendingIsUnanswered(st: State, b: nat)
    requires Asked(st, b)
    ensures Unanswered(st.messages, |st.messages| - 1) <==> st.pending != []
  {
  }

  lemma PendingTurnsAreInside(rs: seq<Request>, i: nat)
    requires i >= |History(rs)|
    ensures !ClosesPendingTurn(rs, i)
  {
    forall k: nat
      ensures !PendingAt(rs, k, i)
    {
      if k < |rs| {
        HistoryGrows(rs, k + 1);
      }
    }
  }

  ghost predicate AllClean(rs: seq<Request>) {
    forall k :: 0 <= k < |rs| ==> EndsCleanly(History(rs[..k]), rs[k])
  }

  /** An alternating history that ends with the assistant and leaves nothing unanswered. */
  ghost predicate Settled(h: seq<Message>) {
    && Alternates(h, 0)
    && (forall i :: 0 <= i < |h| ==> !Unanswered(h, i))
    && (h != [] ==> FromUser(h[0]) && !FromUser(Last(h)))
  }

  /** The last model call of a request was answered, and the answer asks for no tool; an empty request is
      refused without a call. */
  predicate EndsAnswered(h: seq<Message>, r: Request) {
    r.message == ""
    || var calls := Calls(Trace(r.world, Start(h, r.message)));
       calls >= 1 && Answers(r.world.model(calls - 1))
  }

  predicate Answers(reply: Reply) {
    reply.Response? && forall b :: b in reply.blocks ==> !b.Use?
  }

  lemma {:induction false} NoUsesExactly(blocks: seq<Block>)
    ensures Uses(blocks) == [] <==> forall b :: b in blocks ==> !b.Use?
  {
    if blocks != [] {
      var front, last := blocks[..|blocks| - 1], blocks[|blocks| - 1];
      NoUsesExactly(front);
      assert blocks == front + [last];
      assert forall b :: b in blocks <==> b in front || b == last;
    }
  }

  predicate ClosedState(st: State) {
    st.pending == [] && st.messages != [] && !FromUser(Last(st.messages))
  }

  /** How the loop leaves the history is decided by its last model call. */
  lemma {:induction false} LastCallDecides(w: World, st: State)
    requires st.pending == [] && st.messages != [] && FromUser(Last(st.messages))
    ensures var calls := Calls(Trace(w, st));
            calls >= 1 && (ClosedState(Loop(w, st)) <==> Answers(w.model(st.iterations + calls - 1)))
    decreases Fuel(w, st)
  {
    var asked := AgentStep(w, st);
    StepsCount(w, st);
    if Continues(w, asked) {
      var next := DispatchStep(w, asked);
      hide AgentStep;
      LastCallDecides(w, next);
      TraceUnfolds(w, st);
    } else {
      assert Calls(Trace(w, st)) == 1;
      var reply := w.model(st.iterations);
      if reply.Response? {
        NoUsesExactly(reply.blocks);
      }
    }
  }

  /** A request leaves a settled thread settled exactly when its last model call was an answer, and never
      settles another. */
  lemma RequestSettlesExactly(h: seq<Message>, r: Request)
    requires forall i :: 0 <= i < |h| ==> Fits(h, i)
    ensures Settled(Extended(h, r)) <==> Settled(h) && EndsAnswered(h, r)
  {
    if r.message != "" {
      var end, h' := Turn(r.world, h, r.message), Extended(h, r);
      TurnAppends(r.world, h, r.message);
      LastCallDecides(r.world, Start(h, r.message));
      ExtendedFits(h, r);
      JoinedTurn(h, h');
      PendingIsUnanswered(end, |h|);
      assert h + [UserText(r.message)] <= h';
      assert forall i :: 0 <= i < |h| ==> h'[i] == h[i];
      assert h'[|h|] == UserText(r.message);
      assert EndsAnswered(h, r) <==> ClosedState(end);
      hide Turn, Loop, Trace, Calls, TurnFrom, Fits, Answers, EndsAnswered, Extended, Start;
      if Settled(h') {
        PrefixSettles(h, h');
      }
    }
  }

  lemma PrefixSettles(h: seq<Message>, h': seq<Message>)
    requires Settled(h') && |h| < |h'| && h <= h' && FromUser(h'[|h|])
    requires forall i :: 0 <= i < |h| && Unanswered(h, i) ==> Unanswered(h', i)
    ensures Settled(h)
  {
    assert forall i :: 0 <= i < |h| ==> h'[i] == h[i];
    if h != [] {
      assert FromUser(h'[|h|]) <==> !FromUser(h'[|h| - 1]);
    }
  }

  ghost predicate AllAnswered(rs: seq<Request>) {
    forall k :: 0 <= k < |rs| ==> EndsAnswered(History(rs[..k]), rs[k])
  }

  lemma OneMoreAnswered(front: seq<Request>, r: Request)
    ensures AllAnswered(front + [r]) <==> AllAnswered(front) && EndsAnswered(History(front), r)
  {
    var rs := front + [r];
    hide EndsAnswered, History;
    assert forall k :: 0 <= k < |front| ==> front[..k] == rs[..k] && front[k] == rs[k];
    assert rs[..|front|] == front && rs[|front|] == r;
  }

  /** The exact condition: the history of a thread alternates between user and assistant, ends with the
      assistant and leaves no tool use unanswered if and only if the last model call of every request was
      answered and asked for no tool. */
  lemma {:induction false} SettledExactly(rs: seq<Request>)
    ensures Settled(History(rs)) <==> AllAnswered(rs)
  {
    if rs == [] {
      assert Settled([]);
    } else {
      var front, r := rs[..|rs| - 1], rs[|rs| - 1];
      assert rs == front + [r];
      hide Settled, Extended, EndsAnswered, AllAnswered, Fits;
      SettledExactly(front);
      ResultsAnswerUses(front);
      RequestSettlesExactly(History(front), r);
      OneMoreAnswered(front, r);
    }
  }

  /** So it is when every turn ended cleanly. */
  lemma CleanTurnsSettle(rs: seq<Request>)
    requires AllClean(rs)
    ensures Settled(History(rs))
  {
    forall k | 0 <= k < |rs|
      ensures EndsAnswered(History(rs[..k]), rs[k])
    {
      assert EndsCleanly(History(rs[..k]), rs[k]);
      CleanEndsAnswered(History(rs[..k]), rs[k]);
    }
    SettledExactly(rs);
  }

  lemma CleanEndsAnswered(h: seq<Message>, r: Request)
    requires EndsCleanly(h, r)
    ensures EndsAnswered(h, r)
  {
    if r.message != "" {
      TurnAppends(r.world, h, r.message);
      LastCallDecides(r.world, Start(h, r.message));
    }
  }
}
