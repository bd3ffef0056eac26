/** The demo's daily token budget.  A request is admitted when the worst case still fits; what it really
    used is charged when it is done, and nothing is reserved in between. */
module DailyBudget {

  const WORST_CASE_TOKENS: nat := 3000

  /** The state of the budget: the day it counts for, and the tokens used. */
  datatype Budget = Budget(day: string, used: int)

  function Rolled(b: Budget, today: string): Budget {
    if today != b.day then Budget(today, 0) else b
  }

  class TokenBudget {
    const cap: int
    var day: string
    var used: int

    ghost function State(): Budget
      reads this
    {
      Budget(day, used)
    }

    constructor (cap: int)
      ensures this.cap == cap && State() == Budget("", 0)
    {
      this.cap, day, used := cap, "", 0;
    }

    method Roll(today: string)
      modifies this
      ensures State() == Rolled(old(State()), today)
    {
      if today != day {
        day, used := today, 0;
      }
    }

    method CanAfford(tokens: int, today: string) returns (ok: bool)
      modifies this
      ensures State() == Rolled(old(State()), today) && ok == (used + tokens <= cap)
    {
      Roll(today);
      ok := used + tokens <= cap;
    }

    method Charge(tokens: int, today: string)
      modifies this
      ensures State() == Rolled(old(State()), today).(used := Rolled(old(State()), today).used + tokens)
    {
      Roll(today);
      used := used + tokens;
    }

    method Remaining(today: string) returns (n: int)
      modifies this
      ensures State() == Rolled(old(State()), today)
      ensures if used <= cap then used + n == cap else n == 0
    {
      Roll(today);
      n := if cap - used > 0 then cap - used else 0;
    }
  }

  // ---- Requests in flight.

  /** The budget and the number of requests between their check and their charge. */
  datatype System = System(budget: Budget, inFlight: nat)

  datatype Action =
    | Ask(today: string)                     // admitted when the worst case fits
    | Finish(today: string, tokens: nat)     // a request in flight is charged
    | Crash                                  // a request in flight ends in an error, uncharged

  predicate Affordable(cap: int, b: Budget, today: string) {
    Rolled(b, today).used + WORST_CASE_TOKENS <= cap
  }

  function Next(cap: int, s: System, a: Action): System {
    match a
    case Ask(today) =>
      System(Rolled(s.budget, today), if Affordable(cap, s.budget, today) then s.inFlight + 1 else s.inFlight)
    case Finish(today, tokens) =>
      if s.inFlight == 0 then s
      else System(Rolled(s.budget, today).(used := Rolled(s.budget, today).used + tokens), s.inFlight - 1)
    case Crash => if s.inFlight == 0 then s else s.(inFlight := s.inFlight - 1)
  }

  const INITIAL := System(Budget("", 0), 0)

  function After(cap: int, s: System, actions: seq<Action>): System {
    if actions == [] then s else Next(cap, After(cap, s, actions[..|actions| - 1]), actions[|actions| - 1])
  }

  /** The most requests ever in flight together along a run. */
  function Peak(cap: int, s: System, actions: seq<Action>): nat {
    if actions == [] then s.inFlight
    else
      var before, now := Peak(cap, s, actions[..|actions| - 1]), After(cap, s, actions).inFlight;
      if before >= now then before else now
  }

  /** No request costs more than the worst case. */
  predicate Honest(actions: seq<Action>) {
    forall i :: 0 <= i < |actions| && actions[i].Finish? ==> actions[i].tokens <= 3000
  }

  /** Tokens used, and those that may still be charged, with at most n requests in flight. */
  ghost predicate Within(cap: int, s: System, n: nat) {
    && s.inFlight <= n && 0 <= s.budget.used
    && (s.inFlight > 0 ==> cap >= WORST_CASE_TOKENS)
    && s.budget.used + s.inFlight * WORST_CASE_TOKENS <= cap + (n - 1) * WORST_CASE_TOKENS
  }

  lemma StepKeepsWithin(cap: int, s: System, a: Action, n: nat)
    requires Within(cap, s, n) && cap >= 0 && n >= 1 && Next(cap, s, a).inFlight <= n
    requires a.Finish? ==> a.tokens <= WORST_CASE_TOKENS
    ensures Within(cap, Next(cap, s, a), n)
  {
  }

  lemma {:induction false} RunKeepsWithin(cap: int, actions: seq<Action>, n: nat)
    requires cap >= 0 && n >= 1 && Honest(actions) && Peak(cap, INITIAL, actions) <= n
    ensures Within(cap, After(cap, INITIAL, actions), n)
  {
    if actions != [] {
      RunKeepsWithin(cap, actions[..|actions| - 1], n);
      StepKeepsWithin(cap, After(cap, INITIAL, actions[..|actions| - 1]), actions[|actions| - 1], n);
    }
  }

  /** Whatever the interleaving and however the days turn, the budget is never exceeded by more than the
      worst case of all but one of the requests that were ever in flight together. */
  lemma OvershootIsBounded(cap: int, actions: seq<Action>)
    requires cap >= 0 && Honest(actions)
    ensures var n := Peak(cap, INITIAL, actions);
            After(cap, INITIAL, actions).budget.used <= cap + (if n >= 1 then n - 1 else 0) * 3000
  {
    var n := Peak(cap, INITIAL, actions);
    RunKeepsWithin(cap, actions, if n >= 1 then n else 1);
  }

  // ---- What is counted, and when a request is admitted.

  /** Every look at the budget, with the tokens it charges. */
  datatype Touch = Touch(day: string, tokens: nat)

  function TouchOf(s: System, a: Action): seq<Touch> {
    match a
    case Ask(today) => [Touch(today, 0)]
    case Finish(today, tokens) => if s.inFlight == 0 then [] else [Touch(today, tokens)]
    case Crash => []
  }

  function Touches(cap: int, actions: seq<Action>): seq<Touch> {
    if actions == [] then []
    else
      var front := actions[..|actions| - 1];
      Touches(cap, front) + TouchOf(After(cap, INITIAL, front), actions[|actions| - 1])
  }

  /** The tokens charged since the day last changed. */
  function TodaysTotal(ts: seq<Touch>): nat {
    if ts == [] then 0
    else
      var front, last := ts[..|ts| - 1], ts[|ts| - 1];
      last.tokens + if front != [] && front[|front| - 1].day == last.day then TodaysTotal(front) else 0
  }

  predicate Counts(b: Budget, ts: seq<Touch>) {
    b.used == TodaysTotal(ts) && b.day == if ts == [] then "" else ts[|ts| - 1].day
  }

  lemma TouchCounts(cap: int, s: System, a: Action, ts: seq<Touch>)
    requires Counts(s.budget, ts)
    ensures Counts(Next(cap, s, a).budget, ts + TouchOf(s, a))
  {
    var touch := TouchOf(s, a);
    if touch == [] {
      assert ts + touch == ts;
    } else {
      assert (ts + touch)[..|ts + touch| - 1] == ts;
    }
  }

  /** What counts as used is what was charged since the day last changed. */
  lemma {:induction false} UsedIsTodaysTotal(cap: int, actions: seq<Action>)
    ensures var ts, b := Touches(cap, actions), After(cap, INITIAL, actions).budget;
            b.used == TodaysTotal(ts) && b.day == if ts == [] then "" else ts[|ts| - 1].day
  {
    if actions != [] {
      var front, a := actions[..|actions| - 1], actions[|actions| - 1];
      UsedIsTodaysTotal(cap, front);
      hide Next, TodaysTotal, TouchOf;
      TouchCounts(cap, After(cap, INITIAL, front), a, Touches(cap, front));
    }
  }

  /** A request that ends, charged or not, is no longer in flight; only a charge is counted. */
  lemma EndingsExactly(cap: int, s: System, today: string, tokens: nat)
    ensures var left := if s.inFlight > 0 then s.inFlight - 1 else 0;
            Next(cap, s, Finish(today, tokens)).inFlight == Next(cap, s, Crash).inFlight == left
    ensures Next(cap, s, Crash).budget == s.budget
    ensures s.inFlight > 0 ==>
              var used := if today == s.budget.day then s.budget.used else 0;
              Next(cap, s, Finish(today, tokens)).budget == Budget(today, used + tokens)
  {
  }

  /** A request is admitted exactly when the worst case fits under the cap beside what was used today; on a new
      day nothing was. */
  lemma AdmissionExactly(cap: int, s: System, today: string)
    ensures Next(cap, s, Ask(today)).inFlight
         == s.inFlight + if (if today == s.budget.day then s.budget.used else 0) + 3000 <= cap then 1 else 0
  {
  }

  // ---- The bound is met: nothing less holds of the code.

  function Repeat(a: Action, n: nat): (r: seq<Action>)
    ensures |r| == n && forall i :: 0 <= i < n ==> r[i] == a
  {
    if n == 0 then [] else Repeat(a, n - 1) + [a]
  }

  /** One more action at the end of a run. */
  lemma OneMore(cap: int, s: System, front: seq<Action>, a: Action)
    ensures After(cap, s, front + [a]) == Next(cap, After(cap, s, front), a)
    ensures Peak(cap, s, front + [a])
         == if Peak(cap, s, front) >= Next(cap, After(cap, s, front), a).inFlight then Peak(cap, s, front)
            else Next(cap, After(cap, s, front), a).inFlight
  {
    assert (front + [a])[..|front + [a]| - 1] == front;
  }

  lemma HonestAppend(a: seq<Action>, b: seq<Action>)
    requires Honest(a) && Honest(b)
    ensures Honest(a + b)
  {
  }

  /** Use up exactly `tokens`, one request at a time. */
  function UseUp(tokens: nat): seq<Action>
    decreases tokens
  {
    if tokens <= WORST_CASE_TOKENS then [Ask("d"), Finish("d", tokens)]
    else UseUp(tokens - WORST_CASE_TOKENS) + [Ask("d"), Finish("d", WORST_CASE_TOKENS)]
  }

  /** Spend the budget down to the worst case, admit n requests, and let each cost the worst case. */
  function Rush(cap: nat, n: nat): seq<Action>
    requires cap >= WORST_CASE_TOKENS
  {
    UseUp(cap - WORST_CASE_TOKENS) + Repeat(Ask("d"), n) + Repeat(Finish("d", WORST_CASE_TOKENS), n)
  }

  lemma {:induction false} AfterAppend(cap: int, s: System, a: seq<Action>, b: seq<Action>)
    ensures After(cap, s, a + b) == After(cap, After(cap, s, a), b)
    ensures Peak(cap, s, a + b) == (if Peak(cap, s, a) >= Peak(cap, After(cap, s, a), b) then Peak(cap, s, a)
                                    else Peak(cap, After(cap, s, a), b))
  {
    if b == [] {
      assert a + b == a;
      PeakCoversEnd(cap, s, a);
    } else {
      assert (a + b)[..|a + b| - 1] == a + b[..|b| - 1];
      AfterAppend(cap, s, a, b[..|b| - 1]);
    }
  }

  lemma {:induction false} PeakCoversEnd(cap: int, s: System, a: seq<Action>)
    ensures After(cap, s, a).inFlight <= Peak(cap, s, a)
  {
  }

  lemma OneRequest(cap: int, s: System, tokens: nat)
    requires Affordable(cap, s.budget, "d")
    ensures After(cap, s, [Ask("d"), Finish("d", tokens)])
         == System(Budget("d", Rolled(s.budget, "d").used + tokens), s.inFlight)
    ensures Peak(cap, s, [Ask("d"), Finish("d", tokens)]) == s.inFlight + 1
  {
    var a := [Ask("d"), Finish("d", tokens)];
    assert a[..1] == [Ask("d")] && [Ask("d")][..0] == [];
    assert After(cap, s, a[..1]) == Next(cap, s, Ask("d"));
    assert a[..1][..0] == [];
    assert Peak(cap, s, a[..1]) == s.inFlight + 1;
  }

  lemma OneIsHonest(tokens: nat)
    requires tokens <= WORST_CASE_TOKENS
    ensures Honest([Ask("d"), Finish("d", tokens)])
  {
  }

  lemma {:induction false} UseUpReaches(cap: nat, tokens: nat)
    requires tokens + WORST_CASE_TOKENS <= cap
    ensures After(cap, INITIAL, UseUp(tokens)) == System(Budget("d", tokens), 0)
    ensures Peak(cap, INITIAL, UseUp(tokens)) == 1 && Honest(UseUp(tokens))
    decreases tokens
  {
    if tokens <= WORST_CASE_TOKENS {
      OneRequest(cap, INITIAL, tokens);
    } else {
      hide Next, Peak, After, Honest;
      var front := UseUp(tokens - WORST_CASE_TOKENS);
      UseUpReaches(cap, tokens - WORST_CASE_TOKENS);
      AfterAppend(cap, INITIAL, front, [Ask("d"), Finish("d", WORST_CASE_TOKENS)]);
      OneIsHonest(WORST_CASE_TOKENS);
      HonestAppend(front, [Ask("d"), Finish("d", WORST_CASE_TOKENS)]);
      OneRequest(cap, After(cap, INITIAL, front), WORST_CASE_TOKENS);
    }
  }

  lemma {:induction false} AsksPileUp(cap: int, s: System, n: nat)
    requires s.budget.day == "d" && s.budget.used + WORST_CASE_TOKENS <= cap
    ensures After(cap, s, Repeat(Ask("d"), n)) == s.(inFlight := s.inFlight + n)
    ensures Peak(cap, s, Repeat(Ask("d"), n)) == s.inFlight + n
  {
    if n > 0 {
      AsksPileUp(cap, s, n - 1);
      OneMore(cap, s, Repeat(Ask("d"), n - 1), Ask("d"));
      assert Repeat(Ask("d"), n) == Repeat(Ask("d"), n - 1) + [Ask("d")];
      hide After, Peak, Repeat;
    }
  }

  lemma {:induction false} ChargesPileUp(cap: int, s: System, n: nat)
    requires s.budget.day == "d" && n <= s.inFlight
    ensures var fs := Repeat(Finish("d", WORST_CASE_TOKENS), n);
            && After(cap, s, fs) == System(Budget("d", s.budget.used + n * WORST_CASE_TOKENS), s.inFlight - n)
            && Peak(cap, s, fs) == s.inFlight
  {
    if n > 0 {
      var f := Finish("d", WORST_CASE_TOKENS);
      ChargesPileUp(cap, s, n - 1);
      OneMore(cap, s, Repeat(f, n - 1), f);
      assert Repeat(f, n) == Repeat(f, n - 1) + [f];
      hide After, Peak, Repeat;
    }
  }

  /** For every cap that admits a request at all and every n there is a run of honest requests, never more
      than n in flight, that overshoots by exactly n - 1 worst cases: the bound cannot be improved, and
      with no limit on waiting requests there is none. */
  lemma OvershootIsReached(cap: nat, n: nat)
    requires cap >= WORST_CASE_TOKENS && n >= 1
    ensures Honest(Rush(cap, n)) && Peak(cap, INITIAL, Rush(cap, n)) == n
    ensures After(cap, INITIAL, Rush(cap, n)).budget.used == cap + (n - 1) * 3000
  {
    var spend, asks := UseUp(cap - WORST_CASE_TOKENS), Repeat(Ask("d"), n);
    var charges := Repeat(Finish("d", WORST_CASE_TOKENS), n);
    UseUpReaches(cap, cap - WORST_CASE_TOKENS);
    assert Honest(asks) && Honest(charges);
    HonestAppend(spend, asks);
    HonestAppend(spend + asks, charges);
    hide Honest, UseUp, Repeat, After, Peak;
    var s1 := After(cap, INITIAL, spend);
    AsksPileUp(cap, s1, n);
    ChargesPileUp(cap, After(cap, s1, asks), n);
    AfterAppend(cap, INITIAL, spend, asks);
    AfterAppend(cap, INITIAL, spend + asks, charges);
  }
}
