/** Draft confirmation: a rating found in a message is pushed on its channel's FIFO list, popped by whichever
    handler finishes its reply first, offered in a message, bound to that message, and committed or skipped
    by a reaction.  Handlers interleave wherever they wait; a reaction is handled without waiting. */
module Drafts {

  type Uid = nat
  type HandlerId = nat
  type MessageId = nat

  /** A draft.  `uid` tells pushes apart and `author` is who wrote the message; both are recorded for the
      proofs only.  `requester` is the id stamped at push time, empty in payloads of the older format. */
  datatype Draft = Draft(uid: Uid, author: string, film: string, rating: real, viewer: string, requester: string)

  /** A message handler past its pop: waiting for the offer to be posted, or for the reactions on it. */
  datatype Handler =
    | Posting(draft: Draft, requesterId: string)
    | Decorating(draft: Draft, requesterId: string, message: MessageId)

  datatype Bound = Bound(draft: Draft, requesterId: string)

  /** A call of `save_note` from a confirmed draft; `saved` is its answer, and `closed` says that the draft was
      deleted after it. */
  datatype Commit = Commit(draft: Draft, user: string, saved: bool, closed: bool)

  /** Where a draft is. */
  datatype Place =
    Pending(scope: string) | HeldBy(h: HandlerId) | BoundTo(m: MessageId) | Committed | Rejected | Dropped

  datatype State = State(
    pending: map<string, seq<Draft>>,
    handlers: map<HandlerId, Handler>,
    bound: map<MessageId, Bound>,
    commits: seq<Commit>,
    messages: nat,                 // messages posted so far; their ids are 0, 1, ..
    pushed: seq<Draft>,            // all drafts ever pushed; a draft's uid is its position
    place: map<Uid, Place>,
    turns: map<Uid, string>)       // whose turn popped each draft

  /** `Bind` is the writing of the bound fields, whether or not their expiry could be set; a pop may lose its
      payload, to a reply that does not arrive or a text that does not decode; a reaction's deletion may fail. */
  datatype Action =
    | Push(scope: string, author: string, film: string, rating: real, viewer: string, stamped: bool)
    | Pop(h: HandlerId, scope: string, turnOf: string)
    | PopLoses(scope: string)
    | Posted(h: HandlerId)
    | Bind(h: HandlerId)
    | OfferFails(h: HandlerId)
    | React(m: MessageId, user: string, confirm: bool, saved: bool, deletes: bool)
    | ListExpires(scope: string)
    | BindingExpires(m: MessageId)

  const INITIAL := State(map[], map[], map[], [], 0, [], map[], map[])

  function ListOf(s: State, scope: string): seq<Draft> {
    if scope in s.pending then s.pending[scope] else []
  }

  function Pushed(s: State, a: Action): State
    requires a.Push?
  {
    var d := Draft(|s.pushed|, a.author, a.film, a.rating, a.viewer, if a.stamped then a.author else "");
    s.(pending := s.pending[a.scope := ListOf(s, a.scope) + [d]], pushed := s.pushed + [d],
       place := s.place[d.uid := Pending(a.scope)])
  }

  function Popped(s: State, h: HandlerId, scope: string, turnOf: string): State
    requires ListOf(s, scope) != []
  {
    var d := ListOf(s, scope)[0];
    s.(pending := s.pending[scope := ListOf(s, scope)[1..]],
       handlers := s.handlers[h := Posting(d, if d.requester != "" then d.requester else turnOf)],
       place := s.place[d.uid := HeldBy(h)], turns := s.turns[d.uid := turnOf])
  }

  function Lost(s: State, scope: string): State
    requires ListOf(s, scope) != []
  {
    s.(pending := s.pending[scope := ListOf(s, scope)[1..]], place := s.place[ListOf(s, scope)[0].uid := Dropped])
  }

  function BoundNow(s: State, h: HandlerId): State
    requires h in s.handlers && s.handlers[h].Decorating?
  {
    var k := s.handlers[h];
    s.(handlers := s.handlers - {h}, bound := s.bound[k.message := Bound(k.draft, k.requesterId)],
       place := s.place[k.draft.uid := BoundTo(k.message)])
  }

  function Reacted(s: State, m: MessageId, user: string, confirm: bool, saved: bool, deletes: bool): State
    requires m in s.bound
  {
    var b := s.bound[m];
    var done := if confirm then s.(commits := s.commits + [Commit(b.draft, user, saved, deletes)]) else s;
    if user != b.requesterId then s
    else if !deletes then done
    else done.(bound := s.bound - {m}, place := s.place[b.draft.uid := if confirm then Committed else Rejected])
  }

  function MarkDropped(place: map<Uid, Place>, ds: seq<Draft>): map<Uid, Place> {
    map u | u in place :: if exists i :: 0 <= i < |ds| && ds[i].uid == u then Dropped else place[u]
  }

  function Next(s: State, a: Action): State {
    match a
    case Push(_, _, _, _, _, _) => Pushed(s, a)
    case Pop(h, scope, turnOf) =>
      if h !in s.handlers && ListOf(s, scope) != [] then Popped(s, h, scope, turnOf) else s
    case PopLoses(scope) => if ListOf(s, scope) != [] then Lost(s, scope) else s
    case Posted(h) =>
      if h in s.handlers && s.handlers[h].Posting? then
        var k := s.handlers[h];
        s.(handlers := s.handlers[h := Decorating(k.draft, k.requesterId, s.messages)], messages := s.messages + 1)
      else s
    case Bind(h) => if h in s.handlers && s.handlers[h].Decorating? then BoundNow(s, h) else s
    case OfferFails(h) =>
      if h in s.handlers then
        s.(handlers := s.handlers - {h}, place := s.place[s.handlers[h].draft.uid := Dropped],
           messages := s.messages + 1)
      else s
    case React(m, user, confirm, saved, deletes) =>
      if m in s.bound then Reacted(s, m, user, confirm, saved, deletes) else s
    case ListExpires(scope) =>
      s.(pending := s.pending - {scope}, place := MarkDropped(s.place, ListOf(s, scope)))
    case BindingExpires(m) =>
      if m in s.bound then s.(bound := s.bound - {m}, place := s.place[s.bound[m].draft.uid := Dropped]) else s
  }

  function After(s: State, actions: seq<Action>): State {
    if actions == [] then s else Next(After(s, actions[..|actions| - 1]), actions[|actions| - 1])
  }

  // ---- The accounting: every draft is in exactly one place, and each place holds what it says.

  predicate Known(s: State, d: Draft) {
    d.uid < |s.pushed| && s.pushed[d.uid] == d && d.uid in s.place
  }

  /** A draft found somewhere is one that was pushed, and its recorded place is that place. */
  predicate Is(s: State, d: Draft, p: Place) {
    Known(s, d) && s.place[d.uid] == p
  }

  /** Who may react to the offer of a draft: the stamped requester or, without one, the user whose turn
      popped it. */
  predicate MayReact(s: State, d: Draft, user: string) {
    d.uid in s.turns && user == if d.requester != "" then d.requester else s.turns[d.uid]
  }

  ghost predicate ListOk(s: State, scope: string) {
    && (forall i :: 0 <= i < |ListOf(s, scope)| ==> Is(s, ListOf(s, scope)[i], Pending(scope)))
    && (forall i, j :: 0 <= i < j < |ListOf(s, scope)| ==> ListOf(s, scope)[i].uid < ListOf(s, scope)[j].uid)
  }

  ghost predicate HandlerOk(s: State, h: HandlerId) {
    h in s.handlers ==>
      && Is(s, s.handlers[h].draft, HeldBy(h)) && MayReact(s, s.handlers[h].draft, s.handlers[h].requesterId)
      && (s.handlers[h].Decorating? ==> s.handlers[h].message < s.messages)
  }

  ghost predicate BoundOk(s: State, m: MessageId) {
    m in s.bound ==>
      m < s.messages && Is(s, s.bound[m].draft, BoundTo(m)) && MayReact(s, s.bound[m].draft, s.bound[m].requesterId)
  }

  /** No message is offered twice. */
  ghost predicate MessagesApart(s: State) {
    forall h :: h in s.handlers && s.handlers[h].Decorating? ==>
      && s.handlers[h].message !in s.bound
      && forall g :: g in s.handlers && g != h && s.handlers[g].Decorating? ==>
           s.handlers[g].message != s.handlers[h].message
  }

  /** A committed draft is out of the lists and handlers, and done with if it was deleted. */
  predicate CommitOk(s: State, c: Commit) {
    && Known(s, c.draft) && MayReact(s, c.draft, c.user)
    && (if c.closed then s.place[c.draft.uid] == Committed else Offered(s.place[c.draft.uid]))
  }

  predicate Offered(p: Place) {
    !p.Pending? && !p.HeldBy?
  }

  /** Only a commit whose draft could not be deleted is followed by another of that draft. */
  ghost predicate CommitsOk(s: State) {
    && (forall i :: 0 <= i < |s.commits| ==> CommitOk(s, s.commits[i]))
    && (forall i, j :: 0 <= i < j < |s.commits| && s.commits[i].draft.uid == s.commits[j].draft.uid ==>
          !s.commits[i].closed)
  }

  /** The recorded place is where the draft can be found. */
  ghost predicate Located(s: State, u: Uid) {
    u in s.place && u < |s.pushed| &&
    match s.place[u]
    case Pending(scope) => s.pushed[u] in ListOf(s, scope)
    case HeldBy(h) => h in s.handlers && s.handlers[h].draft == s.pushed[u]
    case BoundTo(m) => m in s.bound && s.bound[m].draft == s.pushed[u]
    case Committed => exists i :: 0 <= i < |s.commits| && s.commits[i].draft == s.pushed[u]
    case Rejected => true
    case Dropped => true
  }

  ghost predicate Ok(s: State) {
    && (forall scope: string :: ListOk(s, scope))
    && (forall h: HandlerId :: HandlerOk(s, h))
    && (forall m: MessageId :: BoundOk(s, m))
    && MessagesApart(s)
    && CommitsOk(s)
    && (forall u: Uid :: u < |s.pushed| ==> Located(s, u) && s.pushed[u].uid == u)
    && (forall u: Uid :: u in s.place <==> u < |s.pushed|)
    && (forall u: Uid :: u in s.turns ==> u < |s.pushed|)
  }

  // ---- Steps that move one draft.

  /** The step moves draft `u`, out of or into list `z`, handler `h`, message `m` or the commits, and touches
      nothing else. */
  ghost predicate Moves(s: State, s': State, u: Uid, z: string, h: HandlerId, m: MessageId) {
    && s'.pushed == s.pushed && s.messages <= s'.messages
    && u in s.place && u in s'.place && s'.place.Keys == s.place.Keys
    && (forall v :: v in s.place && v != u ==> s'.place[v] == s.place[v])
    && (forall v :: v != u ==> (v in s'.turns <==> v in s.turns) && (v in s.turns ==> s'.turns[v] == s.turns[v]))
    && (s.place[u].Pending? || s'.turns == s.turns)
    && (Offered(s.place[u]) ==> Offered(s'.place[u]))
    && (forall x :: x != z ==> ListOf(s', x) == ListOf(s, x))
    && (forall g :: g != h ==>
          (g in s'.handlers <==> g in s.handlers) && (g in s.handlers ==> s'.handlers[g] == s.handlers[g]))
    && (forall n :: n != m ==> (n in s'.bound <==> n in s.bound) && (n in s.bound ==> s'.bound[n] == s.bound[n]))
    && s.commits <= s'.commits
    && s.place[u] in {Pending(z), HeldBy(h), BoundTo(m)}
  }

  lemma MoveKeepsOthersLocated(s: State, s': State, u: Uid, z: string, h: HandlerId, m: MessageId, v: Uid)
    requires Moves(s, s', u, z, h, m) && Located(s, v) && v != u && s.pushed[v].uid == v
    requires forall d :: d in ListOf(s, z) && d.uid != u ==> d in ListOf(s', z)
    requires h in s.handlers ==> s.handlers[h].draft.uid == u || (h in s'.handlers && s'.handlers[h] == s.handlers[h])
    requires m in s.bound ==> s.bound[m].draft.uid == u
    ensures Located(s', v)
  {
    if s.place[v] == Committed {
      var i :| 0 <= i < |s.commits| && s.commits[i].draft == s.pushed[v];
      assert s'.commits[i] == s.commits[i];
    }
  }

  /** If no other draft is where the moved one leaves or enters, the accounting is kept. */
  lemma MoveKeepsOk(s: State, s': State, u: Uid, z: string, h: HandlerId, m: MessageId)
    requires Ok(s) && Moves(s, s', u, z, h, m)
    requires forall d :: d in ListOf(s, z) && d.uid != u ==> d in ListOf(s', z)
    requires h in s.handlers ==> s.handlers[h].draft.uid == u || (h in s'.handlers && s'.handlers[h] == s.handlers[h])
    requires m in s.bound ==> s.bound[m].draft.uid == u
    requires ListOk(s', z) && HandlerOk(s', h) && BoundOk(s', m) && MessagesApart(s') && CommitsOk(s') && Located(s', u)
    ensures Ok(s')
  {
    hide Located, MessagesApart, CommitsOk;
    forall x: string
      ensures ListOk(s', x)
    {
      assert ListOk(s, x);
    }
    forall g: HandlerId
      ensures HandlerOk(s', g)
    {
      assert HandlerOk(s, g);
    }
    forall n: MessageId
      ensures BoundOk(s', n)
    {
      assert BoundOk(s, n);
    }
    forall v: Uid | v < |s'.pushed|
      ensures Located(s', v) && s'.pushed[v].uid == v
    {
      if v != u {
        MoveKeepsOthersLocated(s, s', u, z, h, m, v);
      }
    }
  }

  /** The list of a scope is unaffected by a draft that is not in it. */
  lemma ListElsewhere(s: State, s': State, u: Uid, z: string, h: HandlerId, m: MessageId)
    requires Ok(s) && Moves(s, s', u, z, h, m) && ListOf(s', z) == ListOf(s, z) && s.place[u] != Pending(z)
    ensures ListOk(s', z)
  {
    assert ListOk(s, z);
  }

  lemma HandlerElsewhere(s: State, s': State, u: Uid, z: string, h: HandlerId, m: MessageId)
    requires Ok(s) && Moves(s, s', u, z, h, m) && s'.handlers == s.handlers && s.place[u] != HeldBy(h)
    ensures HandlerOk(s', h)
  {
    assert HandlerOk(s, h);
  }

  lemma CommitsElsewhere(s: State, s': State, u: Uid, z: string, h: HandlerId, m: MessageId)
    requires Ok(s) && Moves(s, s', u, z, h, m) && s'.commits == s.commits
    ensures CommitsOk(s')
  {
  }

  lemma PopMoves(s: State, h: HandlerId, scope: string, turnOf: string, m: MessageId)
    requires Ok(s) && h !in s.handlers && ListOf(s, scope) != []
    ensures Known(s, ListOf(s, scope)[0]) && s.place[ListOf(s, scope)[0].uid] == Pending(scope)
    ensures Moves(s, Popped(s, h, scope, turnOf), ListOf(s, scope)[0].uid, scope, h, m)
  {
    assert ListOk(s, scope) && Is(s, ListOf(s, scope)[0], Pending(scope));
  }

  lemma PoppedIsHeld(s: State, h: HandlerId, scope: string, turnOf: string)
    requires h !in s.handlers && ListOf(s, scope) != [] && Known(s, ListOf(s, scope)[0])
    requires MessagesApart(s)
    ensures var s' := Popped(s, h, scope, turnOf);
            HandlerOk(s', h) && Located(s', ListOf(s, scope)[0].uid) && MessagesApart(s')
  {
  }

  lemma PopKeepsOk(s: State, h: HandlerId, scope: string, turnOf: string)
    requires Ok(s) && h !in s.handlers && ListOf(s, scope) != []
    ensures Ok(Popped(s, h, scope, turnOf))
  {
    var s', d, m := Popped(s, h, scope, turnOf), ListOf(s, scope)[0], s.messages;
    assert BoundOk(s, m) && MessagesApart(s);
    assert ListOf(s', scope) == ListOf(s, scope)[1..] && s'.commits == s.commits && m !in s'.bound;
    hide Popped, ListOk, HandlerOk, Located, MessagesApart, CommitsOk, Ok, Moves, Is, Known;
    PopMoves(s, h, scope, turnOf, m);
    TailIsOk(s, s', scope, h, m);
    CommitsElsewhere(s, s', d.uid, scope, h, m);
    PoppedIsHeld(s, h, scope, turnOf);
    MoveKeepsOk(s, s', d.uid, scope, h, m);
  }

  lemma LossMoves(s: State, scope: string, h: HandlerId, m: MessageId)
    requires Ok(s) && ListOf(s, scope) != []
    ensures Moves(s, Lost(s, scope), ListOf(s, scope)[0].uid, scope, h, m)
    ensures Located(Lost(s, scope), ListOf(s, scope)[0].uid)
    ensures s.place[ListOf(s, scope)[0].uid] == Pending(scope)
  {
    assert ListOk(s, scope) && Is(s, ListOf(s, scope)[0], Pending(scope));
  }

  lemma LossKeepsOk(s: State, scope: string)
    requires Ok(s) && ListOf(s, scope) != []
    ensures Ok(Lost(s, scope))
  {
    var s', d, h, m := Lost(s, scope), ListOf(s, scope)[0], 0, s.messages;
    assert BoundOk(s, m) && HandlerOk(s, h) && MessagesApart(s);
    assert ListOf(s', scope) == ListOf(s, scope)[1..] && s'.commits == s.commits;
    assert s'.bound == s.bound && s'.handlers == s.handlers && BoundOk(s', m) && MessagesApart(s');
    hide Lost, ListOk, BoundOk, HandlerOk, Located, MessagesApart, CommitsOk, Ok, Moves, Is, Known;
    LossMoves(s, scope, h, m);
    TailIsOk(s, s', scope, h, m);
    CommitsElsewhere(s, s', d.uid, scope, h, m);
    HandlerElsewhere(s, s', d.uid, scope, h, m);
    MoveKeepsOk(s, s', d.uid, scope, h, m);
  }

  lemma TailIsOk(s: State, s': State, scope: string, h: HandlerId, m: MessageId)
    requires Ok(s) && ListOf(s, scope) != [] && ListOf(s', scope) == ListOf(s, scope)[1..]
    requires Moves(s, s', ListOf(s, scope)[0].uid, scope, h, m)
    ensures ListOk(s', scope)
    ensures forall d :: d in ListOf(s, scope) && d.uid != ListOf(s, scope)[0].uid ==> d in ListOf(s', scope)
  {
    var before, after := ListOf(s, scope), ListOf(s', scope);
    assert ListOk(s, scope);
    assert before == [before[0]] + after;
    forall i | 0 <= i < |after|
      ensures Is(s', after[i], Pending(scope))
    {
      assert after[i] == before[i + 1] && before[0].uid != before[i + 1].uid && Is(s, before[i + 1], Pending(scope));
    }
  }

  lemma BindKeepsOk(s: State, h: HandlerId)
    requires Ok(s) && h in s.handlers && s.handlers[h].Decorating?
    ensures Ok(BoundNow(s, h))
  {
    var s', k := BoundNow(s, h), s.handlers[h];
    assert HandlerOk(s, h) && BoundOk(s, k.message);
    assert Moves(s, s', k.draft.uid, "", h, k.message);
    ListElsewhere(s, s', k.draft.uid, "", h, k.message);
    CommitsElsewhere(s, s', k.draft.uid, "", h, k.message);
    MoveKeepsOk(s, s', k.draft.uid, "", h, k.message);
  }

  lemma OfferFailureKeepsOk(s: State, h: HandlerId)
    requires Ok(s) && h in s.handlers
    ensures Ok(Next(s, OfferFails(h)))
  {
    var s', u, m := Next(s, OfferFails(h)), s.handlers[h].draft.uid, s.messages;
    assert HandlerOk(s, h) && BoundOk(s, m);
    assert Moves(s, s', u, "", h, m);
    ListElsewhere(s, s', u, "", h, m);
    CommitsElsewhere(s, s', u, "", h, m);
    MoveKeepsOk(s, s', u, "", h, m);
  }

  lemma ReactKeepsOk(s: State, m: MessageId, user: string, confirm: bool, saved: bool, deletes: bool)
    requires Ok(s) && m in s.bound && user == s.bound[m].requesterId
    ensures Ok(Reacted(s, m, user, confirm, saved, deletes))
  {
    var s', u := Reacted(s, m, user, confirm, saved, deletes), s.bound[m].draft.uid;
    var h := 0;
    assert BoundOk(s, m);
    assert Moves(s, s', u, "", h, m);
    HandlerElsewhere(s, s', u, "", h, m);
    ListElsewhere(s, s', u, "", h, m);
    if confirm {
      assert s'.commits[|s.commits|].draft == s.pushed[u];
      CommitIsNew(s, s', u, h, m);
    } else {
      CommitsElsewhere(s, s', u, "", h, m);
    }
    assert MessagesApart(s');
    assert Located(s', u) && BoundOk(s', m);
    hide Reacted, Located, MessagesApart, CommitsOk, ListOk, HandlerOk, BoundOk, Ok;
    MoveKeepsOk(s, s', u, "", h, m);
  }

  lemma CommitIsNew(s: State, s': State, u: Uid, h: HandlerId, m: MessageId)
    requires Ok(s) && Moves(s, s', u, "", h, m) && |s'.commits| == |s.commits| + 1 && s.place[u].BoundTo?
    requires CommitOk(s', s'.commits[|s.commits|]) && s'.commits[|s.commits|].draft.uid == u
    ensures CommitsOk(s')
  {
    forall i | 0 <= i < |s.commits|
      ensures CommitOk(s', s'.commits[i]) && (s'.commits[i].closed ==> s'.commits[i].draft.uid != u)
    {
      assert s'.commits[i] == s.commits[i] && CommitOk(s, s.commits[i]);
    }
  }

  lemma BindingExpiryKeepsOk(s: State, m: MessageId)
    requires Ok(s) && m in s.bound
    ensures Ok(Next(s, BindingExpires(m)))
  {
    var s', u, h := Next(s, BindingExpires(m)), s.bound[m].draft.uid, 0;
    assert BoundOk(s, m);
    assert Moves(s, s', u, "", h, m);
    HandlerElsewhere(s, s', u, "", h, m);
    ListElsewhere(s, s', u, "", h, m);
    CommitsElsewhere(s, s', u, "", h, m);
    MoveKeepsOk(s, s', u, "", h, m);
  }

  // ---- The other steps.

  lemma PushKeepsList(s: State, a: Action, x: string)
    requires Ok(s) && a.Push?
    ensures ListOk(Pushed(s, a), x)
  {
    var s' := Pushed(s, a);
    var before, after := ListOf(s, x), ListOf(s', x);
    assert ListOk(s, x);
    assert after == if x == a.scope then before + [s'.pushed[|s.pushed|]] else before;
    forall i | 0 <= i < |before|
      ensures Is(s', after[i], Pending(x)) && after[i].uid < |s.pushed|
    {
      assert Is(s, before[i], Pending(x)) && after[i] == before[i];
    }
  }

  lemma PushKeepsLocated(s: State, a: Action, v: Uid)
    requires Ok(s) && a.Push? && v <= |s.pushed|
    ensures Located(Pushed(s, a), v) && Pushed(s, a).pushed[v].uid == v
  {
    var s', z := Pushed(s, a), a.scope;
    if v == |s.pushed| {
      assert ListOf(s', z)[|ListOf(s, z)|] == s'.pushed[v];
    } else {
      assert Located(s, v);
    }
  }

  lemma PushKeepsOk(s: State, a: Action)
    requires Ok(s) && a.Push?
    ensures Ok(Pushed(s, a))
  {
    var s' := Pushed(s, a);
    forall x: string
      ensures ListOk(s', x)
    {
      PushKeepsList(s, a, x);
    }
    forall g: HandlerId
      ensures HandlerOk(s', g)
    {
      assert HandlerOk(s, g);
    }
    forall n: MessageId
      ensures BoundOk(s', n)
    {
      assert BoundOk(s, n);
    }
    forall i | 0 <= i < |s'.commits|
      ensures CommitOk(s', s'.commits[i])
    {
      assert CommitOk(s, s.commits[i]);
    }
    forall v: Uid | v < |s'.pushed|
      ensures Located(s', v) && s'.pushed[v].uid == v
    {
      PushKeepsLocated(s, a, v);
    }
  }

  lemma PostedKeepsOk(s: State, h: HandlerId)
    requires Ok(s)
    ensures Ok(Next(s, Posted(h)))
  {
    var s' := Next(s, Posted(h));
    forall x: string
      ensures ListOk(s', x)
    {
      SameAccountSameList(s, s', x);
    }
    forall g: HandlerId
      ensures HandlerOk(s', g)
    {
      assert HandlerOk(s, g);
    }
    forall n: MessageId
      ensures BoundOk(s', n)
    {
      assert BoundOk(s, n);
    }
    PostedMessageIsNew(s, h);
    forall v: Uid | v < |s'.pushed|
      ensures Located(s', v)
    {
      assert Located(s, v);
    }
  }

  lemma SameAccountSameList(s: State, s': State, x: string)
    requires Ok(s) && s'.pending == s.pending && s'.pushed == s.pushed && s'.place == s.place
    ensures ListOk(s', x)
  {
    assert ListOk(s, x);
    assert ListOf(s', x) == ListOf(s, x);
    forall i | 0 <= i < |ListOf(s, x)|
      ensures Is(s', ListOf(s, x)[i], Pending(x))
    {
      assert Is(s, ListOf(s, x)[i], Pending(x));
    }
  }

  lemma PostedMessageIsNew(s: State, h: HandlerId)
    requires Ok(s)
    ensures MessagesApart(Next(s, Posted(h)))
  {
    var s' := Next(s, Posted(h));
    assert BoundOk(s, s.messages);
    forall g | g in s.handlers && s.handlers[g].Decorating?
      ensures s.handlers[g].message < s.messages
    {
      assert HandlerOk(s, g);
    }
  }

  lemma ListExpiryKeepsOk(s: State, scope: string)
    requires Ok(s)
    ensures Ok(Next(s, ListExpires(scope)))
  {
    var s', ds := Next(s, ListExpires(scope)), ListOf(s, scope);
    assert ListOk(s, scope);
    forall u | u in s.place
      ensures s'.place[u] == if s.place[u] == Pending(scope) then Dropped else s.place[u]
    {
      assert Located(s, u);
      if i :| 0 <= i < |ds| && ds[i].uid == u {
        assert Is(s, ds[i], Pending(scope));
      }
      if s.place[u] == Pending(scope) {
        var i :| 0 <= i < |ds| && ds[i] == s.pushed[u];
        assert ds[i].uid == u;
      }
    }
    OnlyListDropped(s, s', scope);
  }

  lemma OnlyListDropped(s: State, s': State, scope: string)
    requires Ok(s) && s'.place.Keys == s.place.Keys
    requires s' == s.(pending := s.pending - {scope}, place := s'.place)
    requires forall u :: u in s.place ==> s'.place[u] == if s.place[u] == Pending(scope) then Dropped else s.place[u]
    ensures Ok(s')
  {
    forall x: string
      ensures ListOk(s', x)
    {
      assert ListOk(s, x);
      assert x != scope ==> ListOf(s', x) == ListOf(s, x);
    }
    forall g: HandlerId
      ensures HandlerOk(s', g)
    {
      assert HandlerOk(s, g);
    }
    forall n: MessageId
      ensures BoundOk(s', n)
    {
      assert BoundOk(s, n);
    }
    forall i | 0 <= i < |s'.commits|
      ensures CommitOk(s', s'.commits[i])
    {
      assert CommitOk(s, s.commits[i]);
    }
    forall v: Uid | v < |s'.pushed|
      ensures Located(s', v)
    {
      assert Located(s, v);
    }
  }

  lemma StepKeepsOk(s: State, a: Action)
    requires Ok(s)
    ensures Ok(Next(s, a))
  {
    hide Ok;
    match a {
      case Push(_, _, _, _, _, _) => PushKeepsOk(s, a);
      case Pop(h, scope, turnOf) =>
        if h !in s.handlers && ListOf(s, scope) != [] { PopKeepsOk(s, h, scope, turnOf); }
      case PopLoses(scope) =>
        if ListOf(s, scope) != [] { LossKeepsOk(s, scope); }
      case Posted(h) => PostedKeepsOk(s, h);
      case Bind(h) =>
        if h in s.handlers && s.handlers[h].Decorating? { BindKeepsOk(s, h); }
      case OfferFails(h) =>
        if h in s.handlers { OfferFailureKeepsOk(s, h); }
      case React(m, user, confirm, saved, deletes) =>
        if m in s.bound && user == s.bound[m].requesterId { ReactKeepsOk(s, m, user, confirm, saved, deletes); }
      case ListExpires(scope) => ListExpiryKeepsOk(s, scope);
      case BindingExpires(m) =>
        if m in s.bound { BindingExpiryKeepsOk(s, m); }
    }
  }

  lemma {:induction false} Reachable(actions: seq<Action>)
    ensures Ok(After(INITIAL, actions))
  {
    if actions != [] {
      Reachable(actions[..|actions| - 1]);
      StepKeepsOk(After(INITIAL, actions[..|actions| - 1]), actions[|actions| - 1]);
    }
  }

  // ---- The main results.

  /** In every interleaving each pushed draft is in one place and can be found there; what is committed is
      what was pushed, by the stamped requester or, without one, by the user whose turn popped the draft; and
      only a commit whose draft could not be deleted is followed by another of that draft. */
  lemma CommitsAreThoseConfirmed(actions: seq<Action>)
    ensures var s := After(INITIAL, actions);
            && (forall u: Uid :: u < |s.pushed| ==> Located(s, u))
            && (forall i, j :: 0 <= i < j < |s.commits| && s.commits[i].draft.uid == s.commits[j].draft.uid ==>
                  !s.commits[i].closed)
            && (forall i :: 0 <= i < |s.commits| ==>
                  var c := s.commits[i];
                  && c.draft.uid < |s.pushed| && s.pushed[c.draft.uid] == c.draft
                  && c.draft.uid in s.place && (c.closed ==> s.place[c.draft.uid] == Committed)
                  && c.draft.uid in s.turns
                  && c.user == if c.draft.requester != "" then c.draft.requester else s.turns[c.draft.uid])
  {
    Reachable(actions);
    var s := After(INITIAL, actions);
    forall i | 0 <= i < |s.commits|
      ensures CommitOk(s, s.commits[i])
    {
    }
  }

  /** An expiry and a failed offer lose what they were to lose, and nothing else. */
  lemma LossesExactly(s: State, scope: string, m: MessageId, h: HandlerId)
    ensures var s' := Next(s, ListExpires(scope));
            && ListOf(s', scope) == [] && (forall x :: x != scope ==> ListOf(s', x) == ListOf(s, x))
            && s'.handlers == s.handlers && s'.bound == s.bound && s'.commits == s.commits
    ensures var s' := Next(s, BindingExpires(m));
            && s'.bound == s.bound - {m}
            && s'.pending == s.pending && s'.handlers == s.handlers && s'.commits == s.commits
    ensures var s' := Next(s, OfferFails(h));
            && s'.handlers == s.handlers - {h}
            && s'.pending == s.pending && s'.bound == s.bound && s'.commits == s.commits
  {
    hide MarkDropped;
  }

  /** A reaction on a bound message counts only from its requester: confirming saves the draft once more, and
      either answer unbinds the message if the deletion goes through. */
  lemma ReactionExactly(s: State, m: MessageId, user: string, confirm: bool, saved: bool, deletes: bool)
    requires m in s.bound
    ensures var s', b := Next(s, React(m, user, confirm, saved, deletes)), s.bound[m];
            && s'.commits == s.commits + (if user == b.requesterId && confirm
                                          then [Commit(b.draft, user, saved, deletes)] else [])
            && (m in s'.bound <==> user != b.requesterId || !deletes)
            && (forall n :: n != m ==>
                  (n in s'.bound <==> n in s.bound) && (n in s.bound ==> s'.bound[n] == s.bound[n]))
            && s'.pending == s.pending && s'.handlers == s.handlers
  {
  }

  /** A pop takes the oldest draft that is pending in its scope. */
  lemma PopTakesOldest(actions: seq<Action>, h: HandlerId, scope: string, turnOf: string)
    ensures var s := After(INITIAL, actions);
            var s' := Next(s, Pop(h, scope, turnOf));
            h !in s.handlers && h in s'.handlers ==>
              var d := s'.handlers[h].draft;
              && d.uid in s.place && s.place[d.uid] == Pending(scope)
              && forall u :: u in s.place && s.place[u] == Pending(scope) ==> d.uid <= u
  {
    var s := After(INITIAL, actions);
    Reachable(actions);
    assert ListOk(s, scope);
    forall u | u in s.place && s.place[u] == Pending(scope)
      ensures ListOf(s, scope) != [] && ListOf(s, scope)[0].uid <= u
    {
      assert Located(s, u);
      var i :| 0 <= i < |ListOf(s, scope)| && ListOf(s, scope)[i] == s.pushed[u];
      assert s.pushed[u].uid == u;
    }
    if ListOf(s, scope) != [] {
      assert Is(s, ListOf(s, scope)[0], Pending(scope));
    }
  }

  // ---- Exactly when a commit is the last of its draft.

  lemma StepKeepsCommits(s: State, a: Action)
    ensures s.commits <= Next(s, a).commits
  {
  }

  lemma {:induction false} CommitsGrow(s: State, actions: seq<Action>)
    ensures s.commits <= After(s, actions).commits
  {
    if actions != [] {
      CommitsGrow(s, actions[..|actions| - 1]);
      StepKeepsCommits(After(s, actions[..|actions| - 1]), actions[|actions| - 1]);
    }
  }

  lemma {:induction false} RunKeepsOk(s: State, actions: seq<Action>)
    requires Ok(s)
    ensures Ok(After(s, actions))
  {
    if actions != [] {
      RunKeepsOk(s, actions[..|actions| - 1]);
      StepKeepsOk(After(s, actions[..|actions| - 1]), actions[|actions| - 1]);
    }
  }

  /** No later commit is of draft `u`. */
  ghost predicate LastOf(s: State, u: Uid) {
    forall later: seq<Action>, j :: |s.commits| <= j < |After(s, later).commits| ==>
      After(s, later).commits[j].draft.uid != u
  }

  /** The exact condition: a confirmed draft is never committed again, whatever happens later, if and only
      if it was deleted. */
  lemma CommittedOnceExactly(actions: seq<Action>, m: MessageId, saved: bool, deletes: bool)
    requires m in After(INITIAL, actions).bound
    ensures var s := After(INITIAL, actions);
            var b := s.bound[m];
            LastOf(Reacted(s, m, b.requesterId, true, saved, deletes), b.draft.uid) <==> deletes
  {
    var s := After(INITIAL, actions);
    var b := s.bound[m];
    var s1 := Reacted(s, m, b.requesterId, true, saved, deletes);
    Reachable(actions);
    hide After, Ok;
    ReactKeepsOk(s, m, b.requesterId, true, saved, deletes);
    if deletes {
      forall later: seq<Action>, j | |s1.commits| <= j < |After(s1, later).commits|
        ensures After(s1, later).commits[j].draft.uid != b.draft.uid
      {
        ClosedIsLast(s1, later, |s.commits|, j);
      }
    } else {
      ConfirmedAgain(s1, m, saved);
    }
  }

  lemma ClosedIsLast(s: State, later: seq<Action>, i: nat, j: nat)
    requires Ok(s) && i < |s.commits| && s.commits[i].closed && i < j < |After(s, later).commits|
    ensures After(s, later).commits[j].draft.uid != s.commits[i].draft.uid
  {
    CommitsGrow(s, later);
    RunKeepsOk(s, later);
    hide After;
  }

  lemma ConfirmedAgain(s: State, m: MessageId, saved: bool)
    requires m in s.bound
    ensures !LastOf(s, s.bound[m].draft.uid)
  {
    var again := [React(m, s.bound[m].requesterId, true, saved, true)];
    assert again[..0] == [];
    assert After(s, again) == Next(After(s, []), again[0]);
    assert After(s, again).commits[|s.commits|].draft.uid == s.bound[m].draft.uid;
  }

  // ---- Where a commit comes from.

  /** The i-th action pushed this draft's contents. */
  predicate PushedAt(actions: seq<Action>, i: nat, d: Draft) {
    i < |actions| && actions[i].Push? && actions[i].author == d.author && actions[i].film == d.film
    && actions[i].rating == d.rating && actions[i].viewer == d.viewer
  }

  /** The i-th action popped in the turn of this user. */
  predicate PoppedAt(actions: seq<Action>, i: nat, user: string) {
    i < |actions| && actions[i].Pop? && actions[i].turnOf == user
  }

  /** The i-th action confirmed with this user and answer. */
  predicate ConfirmedAt(actions: seq<Action>, i: nat, c: Commit) {
    i < |actions| && actions[i].React? && actions[i].confirm && actions[i].user == c.user
    && actions[i].saved == c.saved
  }

  ghost predicate WasPushed(actions: seq<Action>, d: Draft) {
    exists p :: PushedAt(actions, p, d)
  }

  ghost predicate WasPopped(actions: seq<Action>, d: Draft, user: string) {
    exists p, q :: p < q && PushedAt(actions, p, d) && PoppedAt(actions, q, user)
  }

  /** The commit's draft was pushed, then popped, in the user's own turn if it was not stamped, and then
      confirmed by the user. */
  ghost predicate TracesBack(actions: seq<Action>, c: Commit) {
    exists p: nat, q: nat, r: nat, turn ::
      && p < q < r && PushedAt(actions, p, c.draft) && PoppedAt(actions, q, turn) && ConfirmedAt(actions, r, c)
      && (c.draft.requester == "" ==> turn == c.user)
  }

  lemma LongerTraces(front: seq<Action>, a: Action)
    ensures forall d :: WasPushed(front, d) ==> WasPushed(front + [a], d)
    ensures forall d, user :: WasPopped(front, d, user) ==> WasPopped(front + [a], d, user)
    ensures forall c :: TracesBack(front, c) ==> TracesBack(front + [a], c)
  {
    forall d | WasPushed(front, d)
      ensures WasPushed(front + [a], d)
    {
      var p :| PushedAt(front, p, d);
      assert PushedAt(front + [a], p, d);
    }
    forall d, user | WasPopped(front, d, user)
      ensures WasPopped(front + [a], d, user)
    {
      var p, q :| p < q && PushedAt(front, p, d) && PoppedAt(front, q, user);
      assert PushedAt(front + [a], p, d) && PoppedAt(front + [a], q, user);
    }
    forall c | TracesBack(front, c)
      ensures TracesBack(front + [a], c)
    {
      var p: nat, q: nat, r: nat, turn :| p < q < r && PushedAt(front, p, c.draft) && PoppedAt(front, q, turn)
                                            && ConfirmedAt(front, r, c) && (c.draft.requester == "" ==> turn == c.user);
      assert PushedAt(front + [a], p, c.draft) && PoppedAt(front + [a], q, turn) && ConfirmedAt(front + [a], r, c);
    }
  }

  /** Every pushed draft was pushed, every popped draft popped, and every commit confirmed. */
  ghost predicate Traced(s: State, actions: seq<Action>) {
    && (forall u :: 0 <= u < |s.pushed| ==> WasPushed(actions, s.pushed[u]))
    && (forall u :: u in s.turns && u < |s.pushed| ==> WasPopped(actions, s.pushed[u], s.turns[u]))
    && (forall i :: 0 <= i < |s.commits| ==> TracesBack(actions, s.commits[i]))
  }

  /** A step adds at most one push, one turn and one commit, each traced. */
  lemma TracedStep(s: State, s': State, front: seq<Action>, a: Action)
    requires Traced(s, front) && s.pushed <= s'.pushed && s.commits <= s'.commits
    requires forall u :: u in s.turns ==> u < |s.pushed|
    requires forall u :: |s.pushed| <= u < |s'.pushed| ==> WasPushed(front + [a], s'.pushed[u])
    requires forall u :: u in s'.turns ==>
               u < |s.pushed| && ((u in s.turns && s'.turns[u] == s.turns[u])
                                  || WasPopped(front + [a], s.pushed[u], s'.turns[u]))
    requires forall i :: |s.commits| <= i < |s'.commits| ==> TracesBack(front + [a], s'.commits[i])
    ensures Traced(s', front + [a])
  {
    LongerTraces(front, a);
    hide WasPushed, WasPopped, TracesBack;
    assert forall u :: 0 <= u < |s.pushed| ==> s'.pushed[u] == s.pushed[u];
    assert forall i :: 0 <= i < |s.commits| ==> s'.commits[i] == s.commits[i];
  }

  lemma PushIsTraced(s: State, front: seq<Action>, a: Action)
    requires Ok(s) && Traced(s, front) && a.Push?
    ensures Traced(Pushed(s, a), front + [a])
  {
    var s' := Pushed(s, a);
    assert PushedAt(front + [a], |front|, s'.pushed[|s.pushed|]);
    hide PushedAt, Traced, WasPopped, TracesBack;
    assert WasPushed(front + [a], s'.pushed[|s.pushed|]);
    TracedStep(s, s', front, a);
  }

  lemma PopIsTraced(s: State, front: seq<Action>, a: Action)
    requires Ok(s) && Traced(s, front) && a.Pop? && ListOf(s, a.scope) != []
    ensures Traced(Popped(s, a.h, a.scope, a.turnOf), front + [a])
  {
    assert ListOk(s, a.scope) && Is(s, ListOf(s, a.scope)[0], Pending(a.scope));
    hide WasPushed, WasPopped;
    PopIsNew(front, a, ListOf(s, a.scope)[0]);
    hide Traced, TracesBack;
    TracedStep(s, Popped(s, a.h, a.scope, a.turnOf), front, a);
  }

  lemma ReactIsTraced(s: State, front: seq<Action>, a: Action)
    requires Ok(s) && Traced(s, front) && a.React? && a.m in s.bound
    ensures Traced(Reacted(s, a.m, a.user, a.confirm, a.saved, a.deletes), front + [a])
  {
    var s', d := Reacted(s, a.m, a.user, a.confirm, a.saved, a.deletes), s.bound[a.m].draft;
    assert BoundOk(s, a.m);
    hide WasPushed, WasPopped, TracesBack;
    if a.confirm && a.user == s.bound[a.m].requesterId {
      ConfirmIsNew(front, a, Commit(d, a.user, a.saved, a.deletes), s.turns[d.uid]);
    }
    hide Traced;
    TracedStep(s, s', front, a);
  }

  lemma StepIsTraced(s: State, front: seq<Action>, a: Action)
    requires Ok(s) && Traced(s, front)
    ensures Traced(Next(s, a), front + [a])
  {
    hide Traced, WasPushed, WasPopped, TracesBack, Pushed, Popped, Reacted;
    match a {
      case Push(_, _, _, _, _, _) => PushIsTraced(s, front, a);
      case Pop(h, scope, turnOf) =>
        if h !in s.handlers && ListOf(s, scope) != [] { PopIsTraced(s, front, a); }
        else { TracedStep(s, s, front, a); }
      case React(m, user, confirm, saved, deletes) =>
        if m in s.bound { ReactIsTraced(s, front, a); }
        else { TracedStep(s, s, front, a); }
      case _ => TracedStep(s, Next(s, a), front, a);
    }
  }

  lemma PopIsNew(front: seq<Action>, a: Action, d: Draft)
    requires a.Pop? && WasPushed(front, d)
    ensures WasPopped(front + [a], d, a.turnOf)
  {
    var p :| PushedAt(front, p, d);
    assert PushedAt(front + [a], p, d) && PoppedAt(front + [a], |front|, a.turnOf);
  }

  lemma ConfirmIsNew(front: seq<Action>, a: Action, c: Commit, turn: string)
    requires WasPopped(front, c.draft, turn) && (c.draft.requester == "" ==> turn == c.user)
    requires a.React? && a.confirm && a.user == c.user && a.saved == c.saved
    ensures TracesBack(front + [a], c)
  {
    var p, q :| p < q && PushedAt(front, p, c.draft) && PoppedAt(front, q, turn);
    assert PushedAt(front + [a], p, c.draft) && PoppedAt(front + [a], q, turn);
    assert ConfirmedAt(front + [a], |front|, c);
  }

  /** Every committed film, rating and viewer come from one push, popped later, in the committing user's own
      turn if the push was not stamped, and confirmed later still by that user. */
  lemma {:induction false} CommitsTraceBack(actions: seq<Action>)
    ensures Traced(After(INITIAL, actions), actions)
    ensures forall c :: c in After(INITIAL, actions).commits ==> TracesBack(actions, c)
  {
    if actions != [] {
      var front := actions[..|actions| - 1];
      assert actions == front + [actions[|actions| - 1]];
      hide Ok, Next, TracesBack, Traced;
      CommitsTraceBack(front);
      Reachable(front);
      StepIsTraced(After(INITIAL, front), front, actions[|actions| - 1]);
    }
    TracedCommits(After(INITIAL, actions), actions);
  }

  lemma TracedCommits(s: State, actions: seq<Action>)
    requires Traced(s, actions)
    ensures forall c :: c in s.commits ==> TracesBack(actions, c)
  {
  }

  // ---- Exactly when only authors commit.

  /** A push of a payload that carries its author's id. */
  predicate Stamps(a: Action) {
    a.Push? ==> a.stamped && a.author != ""
  }

  ghost predicate AllStamped(s: State) {
    forall d :: d in s.pushed ==> d.requester == d.author && d.author != ""
  }

  lemma {:induction false} RequestersAreAuthors(actions: seq<Action>)
    requires forall i :: 0 <= i < |actions| ==> Stamps(actions[i])
    ensures AllStamped(After(INITIAL, actions))
  {
    if actions != [] {
      RequestersAreAuthors(actions[..|actions| - 1]);
      assert Stamps(actions[|actions| - 1]);
      hide Next, AllStamped;
      StepKeepsStamped(After(INITIAL, actions[..|actions| - 1]), actions[|actions| - 1]);
    }
  }

  lemma StepKeepsStamped(s: State, a: Action)
    requires AllStamped(s) && Stamps(a)
    ensures AllStamped(Next(s, a))
  {
    hide MarkDropped, ListOf;
  }

  ghost predicate AuthorsOnly(commits: seq<Commit>) {
    forall i :: 0 <= i < |commits| ==> commits[i].user == commits[i].draft.author
  }

  /** When every payload is stamped, only the author of a draft commits it, however the pops of concurrent
      handlers cross. */
  lemma OnlyTheAuthorCommits(actions: seq<Action>)
    requires forall i :: 0 <= i < |actions| ==> Stamps(actions[i])
    ensures AuthorsOnly(After(INITIAL, actions).commits)
  {
    Reachable(actions);
    RequestersAreAuthors(actions);
    hide Ok, After, AllStamped;
    StampedCommits(After(INITIAL, actions));
  }

  lemma StampedCommits(s: State)
    requires Ok(s) && AllStamped(s)
    ensures AuthorsOnly(s.commits)
  {
    forall i | 0 <= i < |s.commits|
      ensures s.commits[i].user == s.commits[i].draft.author
    {
      assert CommitOk(s, s.commits[i]);
      assert s.pushed[s.commits[i].draft.uid] in s.pushed;
    }
  }

  /** The payload of one push goes to another user's turn, and that user confirms it. */
  function Crossed(push: Action, user: string): seq<Action>
    requires push.Push?
  {
    [push, Pop(1, push.scope, user), Posted(1), Bind(1), React(0, user, true, true, true)]
  }

  /** Whatever was pushed without its author's id, any user whose turn pops it can commit it. */
  lemma UnstampedDraftsCross(push: Action, user: string)
    requires push.Push? && !Stamps(push)
    ensures var s := After(INITIAL, Crossed(push, user));
            |s.commits| == 1 && s.commits[0].draft.author == push.author && s.commits[0].user == user
  {
    var d := Draft(0, push.author, push.film, push.rating, push.viewer, "");
    var run := Crossed(push, user);
    var s1 := Next(INITIAL, run[0]);
    assert ListOf(s1, push.scope) == [d];
    var s2 := Next(s1, run[1]);
    assert s2.handlers[1] == Posting(d, user);
    var s3 := Next(s2, run[2]);
    var s4 := Next(s3, run[3]);
    assert s4.bound[0] == Bound(d, user);
    var s5 := Next(s4, run[4]);
    hide Next;
    FiveSteps(INITIAL, run, s1, s2, s3, s4, s5);
  }

  ghost predicate PushesIn(actions: seq<Action>, S: iset<Action>) {
    forall i :: 0 <= i < |actions| && actions[i].Push? ==> actions[i] in S
  }

  /** The exact condition: with pushes taken from S, drafts are committed by their authors alone in every
      run if and only if every push in S is stamped. */
  lemma AuthorsOnlyExactly(S: iset<Action>)
    ensures (forall actions: seq<Action> :: PushesIn(actions, S) ==> AuthorsOnly(After(INITIAL, actions).commits))
       <==> (forall a :: a in S ==> Stamps(a))
  {
    if forall a :: a in S ==> Stamps(a) {
      forall actions: seq<Action> | PushesIn(actions, S)
        ensures AuthorsOnly(After(INITIAL, actions).commits)
      {
        OnlyTheAuthorCommits(actions);
      }
    } else {
      var a :| a in S && !Stamps(a);
      var other := a.author + "?";
      UnstampedDraftsCross(a, other);
      hide After;
      assert PushesIn(Crossed(a, other), S);
      assert |a.author + "?"| != |a.author|;
    }
  }

  lemma FiveSteps(s0: State, a: seq<Action>, s1: State, s2: State, s3: State, s4: State, s5: State)
    requires |a| == 5 && Next(s0, a[0]) == s1 && Next(s1, a[1]) == s2 && Next(s2, a[2]) == s3
    requires Next(s3, a[3]) == s4 && Next(s4, a[4]) == s5
    ensures After(s0, a) == s5
  {
    hide Next;
    assert a[..5] == a;
    forall k | 0 < k <= 5
      ensures a[..k][..k - 1] == a[..k - 1]
    {
    }
    assert After(s0, a[..1]) == s1;
    assert After(s0, a[..2]) == s2;
    assert After(s0, a[..3]) == s3;
    assert After(s0, a[..4]) == s4;
  }
}
