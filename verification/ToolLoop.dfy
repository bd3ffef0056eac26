/** Sauron's tool loop: a model is called, the tools it asks for are dispatched, and the results are fed
    back until the model stops asking, an error stands, or the iteration limit is met.  Model replies and
    specialist outcomes are arbitrary. */
module ToolLoop {
  import opened Options

  // ---- Messages.

  datatype ToolUse = ToolUse(id: string, name: string, input: string)

  /** A block of a model response; blocks of other types are dropped by the loop. */
  datatype Block = Text(text: string) | Use(tool: ToolUse) | Other

  datatype ResultBlock = ResultBlock(useId: string, content: string, isError: bool)

  datatype Message =
    | UserText(text: string)
    | Assistant(blocks: seq<Block>)
    | ToolResults(results: seq<ResultBlock>)

  datatype Status = Queued | Running | Completed | Failed

  /** What a specialist answers; `body` is its JSON text. */
  datatype SpecialistResult = SpecialistResult(status: Status, error: Option<string>, body: string)

  datatype Reply = CallFailed(error: string) | Response(blocks: seq<Block>)

  datatype Outcome = Answered(result: SpecialistResult) | Raised(error: string)

  /** Everything outside the loop during one turn: the reply to the n-th model call, the outcome of the
      k-th tool of the round after the n-th call, the registered tools and the iteration limit. */
  datatype World = World(model: nat -> Reply, specialist: (nat, nat) -> Outcome,
                         tools: map<string, string>, maxIterations: int)

  datatype State = State(messages: seq<Message>, pending: seq<ToolUse>, intent: Option<string>,
                         lastResult: Option<SpecialistResult>, finalText: Option<string>,
                         error: Option<string>, iterations: nat)

  /** Python truthiness of an optional text. */
  predicate Truthy(e: Option<string>) {
    e.Some? && e.value != ""
  }

  // ---- The agent node.

  function Kept(blocks: seq<Block>): seq<Block> {
    if blocks == [] then []
    else Kept(blocks[..|blocks| - 1]) + if blocks[|blocks| - 1].Other? then [] else [blocks[|blocks| - 1]]
  }

  function Uses(blocks: seq<Block>): seq<ToolUse> {
    if blocks == [] then []
    else Uses(blocks[..|blocks| - 1]) + if blocks[|blocks| - 1].Use? then [blocks[|blocks| - 1].tool] else []
  }

  function LastText(blocks: seq<Block>, before: Option<string>): Option<string> {
    if blocks == [] then before
    else if blocks[|blocks| - 1].Text? then Some(blocks[|blocks| - 1].text)
    else LastText(blocks[..|blocks| - 1], before)
  }

  function AgentStep(w: World, st: State): State {
    match w.model(st.iterations)
    case CallFailed(e) =>
      st.(error := Some("anthropic_call_failed: " + e), iterations := st.iterations + 1)
    case Response(blocks) =>
      st.(messages := st.messages + [Assistant(Kept(blocks))], pending := Uses(blocks),
          finalText := LastText(blocks, st.finalText), iterations := st.iterations + 1)
  }

  method RunAgentStep(w: World, st: State) returns (next: State)
    ensures next == AgentStep(w, st)
  {
    var reply := w.model(st.iterations);
    if reply.CallFailed? {
      return st.(error := Some("anthropic_call_failed: " + reply.error), iterations := st.iterations + 1);
    }
    var content, uses, finalText := [], [], st.finalText;
    for i := 0 to |reply.blocks|
      invariant content == Kept(reply.blocks[..i])
      invariant uses == Uses(reply.blocks[..i])
      invariant finalText == LastText(reply.blocks[..i], st.finalText)
    {
      var block := reply.blocks[i];
      assert reply.blocks[..i + 1][..i] == reply.blocks[..i];
      if block.Use? {
        content := content + [block];
        uses := uses + [block.tool];
      } else if block.Text? {
        content := content + [block];
        finalText := Some(block.text);
      }
    }
    assert reply.blocks[..|reply.blocks|] == reply.blocks;
    return st.(messages := st.messages + [Assistant(content)], pending := uses, finalText := finalText,
               iterations := st.iterations + 1);
  }

  /** What is kept of a response is every block but those of other types, in order. */
  lemma {:induction false} KeptExactly(a: seq<Block>, b: seq<Block>, x: Block)
    ensures Kept(a + b) == Kept(a) + Kept(b) && Kept([x]) == if x.Other? then [] else [x]
  {
    assert [x][..0] == [];
    if b == [] {
      assert a + b == a;
    } else {
      assert (a + b)[..|a + b| - 1] == a + b[..|b| - 1];
      KeptExactly(a, b[..|b| - 1], x);
    }
  }

  /** What is asked for is every tool use, in order. */
  lemma {:induction false} UsesExactly(a: seq<Block>, b: seq<Block>, x: Block)
    ensures Uses(a + b) == Uses(a) + Uses(b) && Uses([x]) == if x.Use? then [x.tool] else []
  {
    assert [x][..0] == [];
    if b == [] {
      assert a + b == a;
    } else {
      assert (a + b)[..|a + b| - 1] == a + b[..|b| - 1];
      UsesExactly(a, b[..|b| - 1], x);
    }
  }

  /** What is said is the last text, if there is one. */
  lemma {:induction false} LastTextExactly(blocks: seq<Block>, before: Option<string>)
    ensures (forall k :: 0 <= k < |blocks| ==> !blocks[k].Text?) ==> LastText(blocks, before) == before
    ensures forall k :: 0 <= k < |blocks| && blocks[k].Text? && (forall j :: k < j < |blocks| ==> !blocks[j].Text?)
                        ==> LastText(blocks, before) == Some(blocks[k].text)
  {
    if blocks != [] {
      LastTextExactly(blocks[..|blocks| - 1], before);
    }
  }

  // ---- The dispatch node.

  /** One dispatched tool: what was asked and how it went. */
  datatype Dispatch = Dispatch(use: ToolUse, outcome: Outcome)

  function DispatchTool(w: World, round: nat, k: nat, use: ToolUse): Outcome {
    if use.name in w.tools then w.specialist(round, k) else Raised("unknown tool: " + use.name)
  }

  function Dispatches(w: World, st: State): (ds: seq<Dispatch>)
    ensures |ds| == |st.pending|
  {
    seq(|st.pending|, k requires 0 <= k < |st.pending| =>
      Dispatch(st.pending[k], DispatchTool(w, st.iterations, k, st.pending[k])))
  }

  function ResultOf(d: Dispatch): ResultBlock {
    match d.outcome
    case Answered(r) => ResultBlock(d.use.id, r.body, false)
    case Raised(e) => ResultBlock(d.use.id, "error: " + e, true)
  }

  function ResultsOf(ds: seq<Dispatch>): seq<ResultBlock> {
    seq(|ds|, k requires 0 <= k < |ds| => ResultOf(ds[k]))
  }

  /** The first dispatch that was answered. */
  function FirstAnswered(ds: seq<Dispatch>): Option<Dispatch> {
    if ds == [] then None else if ds[0].outcome.Answered? then Some(ds[0]) else FirstAnswered(ds[1..])
  }

  /** The last dispatch that was answered. */
  function LastAnswered(ds: seq<Dispatch>): Option<Dispatch> {
    if ds == [] then None
    else if ds[|ds| - 1].outcome.Answered? then Some(ds[|ds| - 1])
    else LastAnswered(ds[..|ds| - 1])
  }

  /** The text of the last dispatch that failed. */
  function LastError(ds: seq<Dispatch>): Option<string> {
    if ds == [] then None
    else if ds[|ds| - 1].outcome.Raised? then Some(ds[|ds| - 1].outcome.error)
    else LastError(ds[..|ds| - 1])
  }

  function SpecialistFor(w: World, d: Dispatch): Option<string> {
    if d.use.name in w.tools then Some(w.tools[d.use.name]) else None
  }

  function IntentAfter(w: World, before: Option<string>, ds: seq<Dispatch>): Option<string> {
    if before.Some? || FirstAnswered(ds).None? then before else SpecialistFor(w, FirstAnswered(ds).value)
  }

  function ResultAfter(before: Option<SpecialistResult>, ds: seq<Dispatch>): Option<SpecialistResult> {
    match LastAnswered(ds)
    case None => before
    case Some(d) => if d.outcome.Answered? then Some(d.outcome.result) else before
  }

  function DispatchStep(w: World, st: State): State {
    var ds := Dispatches(w, st);
    st.(messages := st.messages + [ToolResults(ResultsOf(ds))], pending := [],
        intent := IntentAfter(w, st.intent, ds), lastResult := ResultAfter(st.lastResult, ds),
        error := LastError(ds))
  }

  /** The k-th pending tool is registered and its specialist answers. */
  predicate AnsweredAt(w: World, st: State, k: nat) {
    k < |st.pending| && st.pending[k].name in w.tools && w.specialist(st.iterations, k).Answered?
  }

  /** What the k-th pending tool fails with, if it does. */
  function FailureAt(w: World, st: State, k: nat): Option<string>
    requires k < |st.pending|
  {
    if st.pending[k].name !in w.tools then Some("unknown tool: " + st.pending[k].name)
    else match w.specialist(st.iterations, k)
         case Answered(_) => None
         case Raised(e) => Some(e)
  }

  /** Every pending tool is answered by its own specialist's outcome, under its own id: an unknown tool and a
      specialist that raises by an error, any other by its result. */
  lemma DispatchReportsExactly(w: World, st: State)
    ensures var next := DispatchStep(w, st);
            && |next.messages| == |st.messages| + 1 && next.messages[..|st.messages|] == st.messages
            && next.pending == [] && next.finalText == st.finalText && next.iterations == st.iterations
            && var m := next.messages[|st.messages|];
            && m.ToolResults? && |m.results| == |st.pending|
            && forall k :: 0 <= k < |st.pending| ==>
                 if st.pending[k].name !in w.tools then
                   m.results[k] == ResultBlock(st.pending[k].id, "error: unknown tool: " + st.pending[k].name, true)
                 else match w.specialist(st.iterations, k)
                      case Answered(r) => m.results[k] == ResultBlock(st.pending[k].id, r.body, false)
                      case Raised(e) => m.results[k] == ResultBlock(st.pending[k].id, "error: " + e, true)
  {
    assert forall k :: 0 <= k < |st.pending| ==> Dispatches(w, st)[k].use == st.pending[k];
    assert forall name: string :: "error: " + ("unknown tool: " + name) == "error: unknown tool: " + name;
  }

  lemma DispatchedAt(w: World, st: State, k: nat)
    requires k < |st.pending|
    ensures var d := Dispatches(w, st)[k];
            && d.use == st.pending[k]
            && (d.outcome.Answered? <==> AnsweredAt(w, st, k))
            && (d.outcome.Answered? ==> d.outcome == w.specialist(st.iterations, k))
            && FailureAt(w, st, k) == if d.outcome.Raised? then Some(d.outcome.error) else None
  {
  }

  /** The result left is that of the last tool answered; without an answer it stays. */
  lemma ResultLeftExactly(w: World, st: State)
    ensures forall k: nat :: AnsweredAt(w, st, k) && (forall j: nat :: k < j ==> !AnsweredAt(w, st, j)) ==>
              DispatchStep(w, st).lastResult == Some(w.specialist(st.iterations, k).result)
    ensures (forall k: nat :: !AnsweredAt(w, st, k)) ==> DispatchStep(w, st).lastResult == st.lastResult
  {
    forall k: nat | k < |st.pending| {
      DispatchedAt(w, st, k);
    }
    LastAnsweredExactly(Dispatches(w, st));
    hide LastAnswered, Dispatches, AnsweredAt;
  }

  /** The intent, once found, stays; otherwise it is the specialist of the first tool answered. */
  lemma IntentLeftExactly(w: World, st: State)
    ensures forall k: nat :: AnsweredAt(w, st, k) && (forall j: nat :: j < k ==> !AnsweredAt(w, st, j)) ==>
              DispatchStep(w, st).intent == if st.intent.Some? then st.intent else Some(w.tools[st.pending[k].name])
    ensures (forall k: nat :: !AnsweredAt(w, st, k)) ==> DispatchStep(w, st).intent == st.intent
  {
    forall k: nat | k < |st.pending| {
      DispatchedAt(w, st, k);
    }
    FirstAnsweredExactly(Dispatches(w, st));
    hide FirstAnswered, Dispatches;
  }

  /** The error left is the text of the last failure; without a failure none stands. */
  lemma ErrorLeftExactly(w: World, st: State)
    ensures forall k: nat :: k < |st.pending| && FailureAt(w, st, k).Some?
                             && (forall j: nat :: k < j < |st.pending| ==> FailureAt(w, st, j).None?) ==>
              DispatchStep(w, st).error == FailureAt(w, st, k)
    ensures (forall k: nat :: k < |st.pending| ==> FailureAt(w, st, k).None?) ==> DispatchStep(w, st).error == None
  {
    forall k: nat | k < |st.pending| {
      DispatchedAt(w, st, k);
    }
    LastErrorExactly(Dispatches(w, st));
    hide LastError, Dispatches, FailureAt;
  }

  lemma {:induction false} FirstAnsweredExactly(ds: seq<Dispatch>)
    ensures (forall k :: 0 <= k < |ds| ==> ds[k].outcome.Raised?) ==> FirstAnswered(ds).None?
    ensures forall k :: 0 <= k < |ds| && ds[k].outcome.Answered? && (forall j :: 0 <= j < k ==> ds[j].outcome.Raised?)
                        ==> FirstAnswered(ds) == Some(ds[k])
  {
    if ds != [] {
      FirstAnsweredExactly(ds[1..]);
      forall k | 0 < k < |ds|
        ensures ds[k] == ds[1..][k - 1]
      {
      }
    }
  }

  lemma {:induction false} LastAnsweredExactly(ds: seq<Dispatch>)
    ensures (forall k :: 0 <= k < |ds| ==> ds[k].outcome.Raised?) ==> LastAnswered(ds).None?
    ensures forall k :: 0 <= k < |ds| && ds[k].outcome.Answered? && (forall j :: k < j < |ds| ==> ds[j].outcome.Raised?)
                        ==> LastAnswered(ds) == Some(ds[k])
  {
    if ds != [] {
      LastAnsweredExactly(ds[..|ds| - 1]);
    }
  }

  lemma {:induction false} LastErrorExactly(ds: seq<Dispatch>)
    ensures (forall k :: 0 <= k < |ds| ==> ds[k].outcome.Answered?) ==> LastError(ds).None?
    ensures forall k :: 0 <= k < |ds| && ds[k].outcome.Raised? && (forall j :: k < j < |ds| ==> ds[j].outcome.Answered?)
                        ==> LastError(ds) == Some(ds[k].outcome.error)
  {
    if ds != [] {
      LastErrorExactly(ds[..|ds| - 1]);
    }
  }

  lemma {:induction false} FirstAnsweredSnoc(ds: seq<Dispatch>, d: Dispatch)
    ensures FirstAnswered(ds + [d])
         == if FirstAnswered(ds).Some? then FirstAnswered(ds) else if d.outcome.Answered? then Some(d) else None
  {
    if ds != [] {
      assert (ds + [d])[1..] == ds[1..] + [d];
      FirstAnsweredSnoc(ds[1..], d);
    }
  }

  lemma {:induction false} FirstAnsweredAppend(a: seq<Dispatch>, b: seq<Dispatch>)
    ensures FirstAnswered(a + b) == if FirstAnswered(a).Some? then FirstAnswered(a) else FirstAnswered(b)
  {
    if a == [] {
      assert a + b == b;
    } else {
      assert (a + b)[1..] == a[1..] + b;
      FirstAnsweredAppend(a[1..], b);
    }
  }

  lemma {:induction false} LastAnsweredAppend(a: seq<Dispatch>, b: seq<Dispatch>)
    ensures LastAnswered(a + b) == if LastAnswered(b).Some? then LastAnswered(b) else LastAnswered(a)
  {
    if b == [] {
      assert a + b == a;
    } else {
      assert (a + b)[..|a + b| - 1] == a + b[..|b| - 1];
      LastAnsweredAppend(a, b[..|b| - 1]);
    }
  }

  lemma AnsweredIsAnswered(ds: seq<Dispatch>)
    ensures FirstAnswered(ds).Some? ==> FirstAnswered(ds).value in ds && FirstAnswered(ds).value.outcome.Answered?
    ensures LastAnswered(ds).Some? ==> LastAnswered(ds).value in ds && LastAnswered(ds).value.outcome.Answered?
  {
  }

  method RunDispatchStep(w: World, st: State) returns (next: State)
    ensures next == DispatchStep(w, st)
  {
    var results: seq<ResultBlock> := [];
    var intent, lastResult, error: Option<string> := st.intent, st.lastResult, None;
    ghost var ds := Dispatches(w, st);
    for k := 0 to |st.pending|
      invariant results == ResultsOf(ds[..k])
      invariant intent == IntentAfter(w, st.intent, ds[..k])
      invariant lastResult == ResultAfter(st.lastResult, ds[..k])
      invariant error == LastError(ds[..k])
    {
      var use := st.pending[k];
      var outcome := DispatchTool(w, st.iterations, k, use);
      assert ds[..k + 1] == ds[..k] + [ds[k]] && ds[..k + 1][..k] == ds[..k];
      FirstAnsweredSnoc(ds[..k], ds[k]);
      AnsweredIsAnswered(ds[..k]);
      AnsweredHasSpecialist(w, st, k);
      if outcome.Answered? {
        if intent.None? {
          intent := if use.name in w.tools then Some(w.tools[use.name]) else None;
        }
        lastResult := Some(outcome.result);
        results := results + [ResultBlock(use.id, outcome.result.body, false)];
      } else {
        error := Some(outcome.error);
        results := results + [ResultBlock(use.id, "error: " + outcome.error, true)];
      }
    }
    assert ds[..|st.pending|] == ds;
    return st.(messages := st.messages + [ToolResults(results)], pending := [], intent := intent,
               lastResult := lastResult, error := error);
  }

  lemma AnsweredHasSpecialist(w: World, st: State, n: nat)
    requires n <= |st.pending|
    ensures forall d :: d in Dispatches(w, st)[..n] && d.outcome.Answered? ==> d.use.name in w.tools
  {
  }

  // ---- Routing and the whole turn.

  predicate Continues(w: World, st: State) {
    !Truthy(st.error) && st.pending != [] && st.iterations < w.maxIterations
  }

  function Fuel(w: World, st: State): nat {
    if st.iterations < w.maxIterations then w.maxIterations - st.iterations else 0
  }

  /** Run from the agent node to the end of the turn. */
  function Loop(w: World, st: State): State
    decreases Fuel(w, st)
  {
    var asked := AgentStep(w, st);
    if Continues(w, asked) then Loop(w, DispatchStep(w, asked)) else asked
  }

  method RunLoop(w: World, start: State) returns (st: State)
    ensures st == Loop(w, start)
  {
    st := RunAgentStep(w, start);
    ghost var from := start;
    while Continues(w, st)
      invariant st == AgentStep(w, from)
      invariant Loop(w, start) == Loop(w, from)
      decreases Fuel(w, from)
    {
      st := RunDispatchStep(w, st);
      from := st;
      st := RunAgentStep(w, st);
    }
  }

  function Start(history: seq<Message>, message: string): State {
    State(history + [UserText(message)], [], None, None, None, None, 0)
  }

  function Turn(w: World, history: seq<Message>, message: string): State {
    Loop(w, Start(history, message))
  }
}
