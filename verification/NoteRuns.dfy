/** Whole runs of saves and deletes: the indexes always agree with the notes, weekly uniqueness, and
    the save/delete round trip. */
module NoteRuns {
  import opened Options
  import opened SortedSets
  import opened NoteIndex
  import opened NoteStore

  datatype Op =
    | SaveOp(film: string, watcher: string, rating: Rating, reaction: string, themes: string,
             id: Member, now: nat, commits: bool)
    | DeleteOp(film: string, watcher: string, now: nat)

  function Step(t: Text, s: Store, op: Op): Store {
    match op
    case SaveOp(f, w, r, reaction, themes, id, now, commits) =>
      Save(t, s, f, w, r, reaction, themes, id, now, commits).0
    case DeleteOp(f, w, now) => Delete(t, s, f, w, now).0
  }

  function After(t: Text, s: Store, ops: seq<Op>): Store
    decreases |ops|
  {
    if ops == [] then s else After(t, Step(t, s, ops[0]), ops[1..])
  }

  /** Time never runs backwards and every save brings an unused note id. */
  ghost predicate Legal(t: Text, s: Store, ops: seq<Op>, clock: nat)
    decreases |ops|
  {
    ops != [] ==>
      && clock <= ops[0].now
      && (ops[0].SaveOp? ==> ops[0].id !in s.notes)
      && Legal(t, Step(t, s, ops[0]), ops[1..], ops[0].now)
  }

  // ---- Index agreement.

  ghost predicate Indexed(s: Store) {
    && Agrees(s.films, s.notes, FilmSide)
    && Agrees(s.watchers, s.notes, WatcherSide)
    && s.all == Scores(s.notes)
  }

  lemma InsertKeepsIndexed(s: Store, id: Member, n: Note)
    requires Indexed(s) && id !in s.notes
    ensures Indexed(Inserted(s, id, n))
  {
    AddAgrees(s.films, s.notes, FilmSide, id, n, s.notes[id := n]);
    AddAgrees(s.watchers, s.notes, WatcherSide, id, n, s.notes[id := n]);
  }

  lemma EraseKeepsIndexed(s: Store, id: Member, now: nat)
    requires Indexed(s) && id in s.notes
    ensures Indexed(Erased(s, id, now))
  {
    RemoveAgrees(s.films, s.notes, FilmSide, id, s.notes - {id});
    RemoveAgrees(s.watchers, s.notes, WatcherSide, id, s.notes - {id});
    assert Scores(s.notes - {id}) == Scores(s.notes) - {id};
  }

  lemma SaveKeepsIndexed(t: Text, s: Store, film: string, watcher: string, r: Rating, reaction: string,
                         themes: string, id: Member, now: nat, commits: bool)
    requires Indexed(s) && id !in s.notes
    ensures Indexed(Save(t, s, film, watcher, r, reaction, themes, id, now, commits).0)
  {
    if r.Numeric? {
      InsertKeepsIndexed(s, id, Note(t.strip(film), t.strip(watcher), r.value, now, reaction, themes));
    }
  }

  lemma DeleteKeepsIndexed(t: Text, s: Store, film: string, watcher: string, now: nat)
    requires Indexed(s)
    ensures Indexed(Delete(t, s, film, watcher, now).0)
  {
    var f, w := t.strip(film), t.strip(watcher);
    var ids := Candidates(s, f);
    var m := FirstMatch(t, s.notes, ids, f, w);
    FirstMatchMatches(t, s.notes, ids, f, w);
    if m.Some? {
      EraseKeepsIndexed(s, m.value, now);
    }
  }

  lemma StepKeepsIndexed(t: Text, s: Store, op: Op)
    requires Indexed(s) && (op.SaveOp? ==> op.id !in s.notes)
    ensures Indexed(Step(t, s, op))
  {
    match op
    case SaveOp(f, w, r, reaction, themes, id, now, commits) =>
      SaveKeepsIndexed(t, s, f, w, r, reaction, themes, id, now, commits);
    case DeleteOp(f, w, now) =>
      DeleteKeepsIndexed(t, s, f, w, now);
  }

  lemma {:induction false} RunKeepsIndexed(t: Text, s: Store, ops: seq<Op>, clock: nat)
    requires Indexed(s) && Legal(t, s, ops, clock)
    ensures Indexed(After(t, s, ops))
    decreases |ops|
  {
    if ops != [] {
      StepKeepsIndexed(t, s, ops[0]);
      RunKeepsIndexed(t, Step(t, s, ops[0]), ops[1..], ops[0].now);
    }
  }

  /** In every reachable state each index says exactly what the base table says. */
  lemma IndexAgreement(t: Text, ops: seq<Op>)
    requires Legal(t, EMPTY, ops, 0)
    ensures Indexed(After(t, EMPTY, ops))
  {
    EmptyAgrees(FilmSide);
    EmptyAgrees(WatcherSide);
    RunKeepsIndexed(t, EMPTY, ops, 0);
  }

  // ---- Weeks.

  lemma WeeksMoveForward(a: nat, b: nat)
    requires a <= b
    ensures WeekStart(a) <= WeekStart(b)
    ensures WeekStart(a) == WeekStart(b) ==> b < a + WEEK_MICROS
  {
    var da, db := Seconds(a) / DAY, Seconds(b) / DAY;
    assert da <= db;
    assert WeekStart(a) == WeekStart(b) ==> db < da + 7;
  }

  // ---- Weekly uniqueness.

  /** No two live notes share film, watcher and calendar week. */
  ghost predicate OnePerWeek(notes: Notes) {
    forall i, j :: i in notes && j in notes && i != j && notes[i].film == notes[j].film
                   && notes[i].watcher == notes[j].watcher
                   ==> !SameWeek(notes[i].at, notes[j].at)
  }

  /** The same, told by the day a week starts. */
  ghost predicate OnePerWeekStart(notes: Notes) {
    forall i, j :: i in notes && j in notes && i != j && notes[i].film == notes[j].film
                   && notes[i].watcher == notes[j].watcher
                   ==> WeekStart(notes[i].at) != WeekStart(notes[j].at)
  }

  lemma OnePerWeekExactly(notes: Notes)
    ensures OnePerWeekStart(notes) <==> OnePerWeek(notes)
  {
    forall i, j | i in notes && j in notes
      ensures WeekStart(notes[i].at) == WeekStart(notes[j].at) <==> SameWeek(notes[i].at, notes[j].at)
    {
      WeeksExactly(notes[i].at, notes[j].at);
    }
  }

  /** No two different name pairs share a deduplication key. */
  ghost predicate CollisionFree(P: iset<(string, string)>) {
    forall p, q :: p in P && q in P && Join(p.0, p.1) == Join(q.0, q.1) ==> p == q
  }

  /** A delete under this title reaches a note of p even though a note of q is live: it is p's title, or one
      that differs in case and is not q's. */
  predicate Reaches(t: Text, title: string, p: (string, string), q: (string, string)) {
    var f := t.strip(title);
    f != "" && t.lower(f) == t.lower(p.0) && (f == p.0 || f != q.0)
  }

  /** Some delete can take a note of p out, and its key with it, while a note of q is live. */
  ghost predicate CanFree(t: Text, p: (string, string), q: (string, string)) {
    p.1 != "" && exists title :: Reaches(t, title, p, q)
  }

  /** No name pair shares its key with another that could be freed under it. */
  ghost predicate NeverFreed(t: Text, P: iset<(string, string)>) {
    forall p, q :: p in P && q in P && p != q && Join(p.0, p.1) == Join(q.0, q.1) ==> !CanFree(t, p, q)
  }

  ghost predicate Lawful(unique: map<DedupKey, Lease>, clock: nat) {
    forall k :: k in unique ==>
      && WEEK_MICROS <= unique[k].expires <= clock + WEEK_MICROS
      && WeekStart(unique[k].expires - WEEK_MICROS) == k.week
  }

  ghost predicate Guarded(s: Store, id: Member, clock: nat)
    requires id in s.notes
  {
    var n := s.notes[id];
    && n.at <= clock
    && (WeekStart(n.at) == WeekStart(clock) ==> KeyOf(n.film, n.watcher, clock) in s.unique)
  }

  /** A key of the current week belongs to a live note of that week. */
  ghost predicate Backed(s: Store, key: DedupKey)
    requires key in s.unique
  {
    var id := s.unique[key].id;
    id in s.notes && KeyOf(s.notes[id].film, s.notes[id].watcher, s.notes[id].at) == key
  }

  /** What every reachable state keeps when all saved names come from P. */
  ghost predicate Safe(s: Store, clock: nat, P: iset<(string, string)>) {
    && Indexed(s)
    && Lawful(s.unique, clock)
    && OnePerWeekStart(s.notes)
    && (forall k :: k in s.unique && k.week == WeekStart(clock) ==> Backed(s, k))
    && (forall id :: id in s.notes ==> Guarded(s, id, clock) && (s.notes[id].film, s.notes[id].watcher) in P)
  }

  lemma TimePasses(s: Store, clock: nat, now: nat, P: iset<(string, string)>)
    requires Safe(s, clock, P) && clock <= now
    ensures Safe(s, now, P)
  {
    forall id | id in s.notes
      ensures Guarded(s, id, now)
    {
      assert Guarded(s, id, clock);
      WeeksMoveForward(s.notes[id].at, clock);
      WeeksMoveForward(clock, now);
    }
    forall k | k in s.unique && k.week == WeekStart(now)
      ensures Backed(s, k)
    {
      WeeksMoveForward(s.unique[k].expires - WEEK_MICROS, clock);
      WeeksMoveForward(clock, now);
    }
  }

  /** A key of the current week cannot have expired. */
  lemma CurrentWeekKeyIsHeld(unique: map<DedupKey, Lease>, key: DedupKey, now: nat)
    requires Lawful(unique, now) && key in unique && key.week == WeekStart(now)
    ensures Held(unique, key, now)
  {
    WeeksMoveForward(unique[key].expires - WEEK_MICROS, now);
  }

  lemma InsertKeepsSafe(s: Store, id: Member, n: Note, P: iset<(string, string)>)
    requires Safe(s, n.at, P) && id !in s.notes && (n.film, n.watcher) in P
    requires !Held(s.unique, KeyOf(n.film, n.watcher, n.at), n.at)
    ensures Safe(Inserted(s, id, n), n.at, P)
  {
    hide Indexed, Added;
    var s' := Inserted(s, id, n);
    InsertKeepsIndexed(s, id, n);
    forall k | k in s.notes
      ensures Guarded(s', k, n.at)
      ensures s.notes[k].film == n.film && s.notes[k].watcher == n.watcher
          ==> WeekStart(s.notes[k].at) != WeekStart(n.at)
    {
      assert Guarded(s, k, n.at);
      if KeyOf(n.film, n.watcher, n.at) in s.unique {
        CurrentWeekKeyIsHeld(s.unique, KeyOf(n.film, n.watcher, n.at), n.at);
      }
    }
    assert Guarded(s', id, n.at);
    forall k | k in s'.unique && k.week == WeekStart(n.at)
      ensures Backed(s', k)
    {
      if k in s.unique {
        assert Backed(s, k);
      }
    }
  }

  lemma FirstMatchIsHighest(t: Text, notes: Notes, z: ZSet, film: string, watcher: string, id: Member, k: Member)
    requires FirstMatch(t, notes, RevRanked(z), film, watcher) == Some(id)
    requires k in z && k != id && Matches(t, notes, k, film, watcher)
    ensures Before(z, k, id)
  {
    var ids := RevRanked(z);
    FirstMatchIsFirst(t, notes, ids, film, watcher);
    var i :| 0 <= i < |ids| && ids[i] == id && forall j :: 0 <= j < i ==> !Matches(t, notes, ids[j], film, watcher);
    assert k in ids;
    var j :| 0 <= j < |ids| && ids[j] == k;
    assert Before(z, ids[j], ids[i]);
  }

  /** A delete finds the newest of the notes sharing its note's film and watcher. */
  lemma TargetIsNewest(t: Text, s: Store, film: string, watcher: string, id: Member, k: Member)
    requires Indexed(s) && FirstMatch(t, s.notes, Candidates(s, film), film, watcher) == Some(id)
    requires k in s.notes && k != id
    requires id in s.notes && s.notes[k].film == s.notes[id].film && s.notes[k].watcher == s.notes[id].watcher
    ensures Before(Scores(s.notes), k, id)
  {
    FirstMatchMatches(t, s.notes, Candidates(s, film), film, watcher);
    assert Matches(t, s.notes, k, film, watcher);
    var exact := ZGet(s.films.zsets, film);
    if RevRanked(exact) == [] {
      FirstMatchIsHighest(t, s.notes, s.all, film, watcher, id, k);
    } else {
      assert AgreesAt(s.films, s.notes, FilmSide, film);
      assert id in exact;
      FirstMatchIsHighest(t, s.notes, exact, film, watcher, id, k);
    }
  }

  /** The notes searched are those under the title, or all if it has none. */
  lemma CandidatesExactly(s: Store, film: string, k: Member)
    requires Indexed(s)
    ensures k in Candidates(s, film)
       <==> k in s.notes && (s.notes[k].film == film || forall j :: j in s.notes ==> s.notes[j].film != film)
  {
    var exact := ZGet(s.films.zsets, film);
    assert AgreesAt(s.films, s.notes, FilmSide, film);
    assert forall j :: j in exact <==> j in s.notes && s.notes[j].film == film;
    assert RevRanked(exact) == [] <==> forall j :: j !in exact by {
      if RevRanked(exact) != [] {
        assert RevRanked(exact)[0] in RevRanked(exact);
      }
    }
  }

  /** A delete under `title` does not free the key of another live note. */
  lemma ErasedNameIsOwn(t: Text, s: Store, title: string, watcher: string, id: Member, k: Member,
                        P: iset<(string, string)>)
    requires Indexed(s) && NeverFreed(t, P) && t.strip(title) != "" && watcher != ""
    requires FirstMatch(t, s.notes, Candidates(s, t.strip(title)), t.strip(title), watcher) == Some(id)
    requires id in s.notes && k in s.notes
    requires (s.notes[id].film, s.notes[id].watcher) in P && (s.notes[k].film, s.notes[k].watcher) in P
    requires Join(s.notes[k].film, s.notes[k].watcher) == Join(s.notes[id].film, s.notes[id].watcher)
    ensures (s.notes[k].film, s.notes[k].watcher) == (s.notes[id].film, s.notes[id].watcher)
  {
    hide Indexed, Candidates, FirstMatch, NeverFreed, Join;
    var film := t.strip(title);
    FirstMatchMatches(t, s.notes, Candidates(s, film), film, watcher);
    CandidatesExactly(s, film, id);
    NotFreed(t, title, (s.notes[id].film, s.notes[id].watcher), (s.notes[k].film, s.notes[k].watcher), P);
  }

  lemma NotFreed(t: Text, title: string, p: (string, string), q: (string, string), P: iset<(string, string)>)
    requires NeverFreed(t, P) && p in P && q in P && Join(p.0, p.1) == Join(q.0, q.1)
    requires p.1 != "" && (p != q ==> Reaches(t, title, p, q))
    ensures p == q
  {
    hide Reaches, Join;
  }

  lemma EraseKeepsSafe(t: Text, s: Store, title: string, watcher: string, id: Member, now: nat,
                       P: iset<(string, string)>)
    requires Safe(s, now, P) && NeverFreed(t, P) && t.strip(title) != "" && watcher != ""
    requires FirstMatch(t, s.notes, Candidates(s, t.strip(title)), t.strip(title), watcher) == Some(id)
    requires id in s.notes
    ensures Safe(Erased(s, id, now), now, P)
  {
    hide Indexed, Removed, FirstMatch, Candidates, NeverFreed;
    var n, s' := s.notes[id], Erased(s, id, now);
    EraseKeepsIndexed(s, id, now);
    forall k | k in s'.notes
      ensures Guarded(s', k, now)
    {
      assert Guarded(s, k, now);
      var m := s.notes[k];
      if WeekStart(m.at) == WeekStart(now) && KeyOf(m.film, m.watcher, now) == KeyOf(n.film, n.watcher, now) {
        ErasedNameIsOwn(t, s, title, watcher, id, k, P);
        TargetIsNewest(t, s, t.strip(title), watcher, id, k);
        assert Seconds(m.at) <= Seconds(n.at);
        assert Guarded(s, id, now);
        SecondsDecideWeeks(m.at, n.at, now);
        assert false;
      }
    }
    forall k | k in s'.unique && k.week == WeekStart(now)
      ensures Backed(s', k)
    {
      assert Backed(s, k);
    }
  }

  lemma SecondsDecideWeeks(a: nat, b: nat, now: nat)
    requires Seconds(a) <= Seconds(b) && b <= now && WeekStart(a) == WeekStart(now)
    ensures WeekStart(b) == WeekStart(now)
  {
    WeeksMoveForward(b, now);
    WeeksMoveForward(Seconds(a) * 1_000_000, Seconds(b) * 1_000_000);
  }

  ghost predicate SavesWithin(t: Text, op: Op, P: iset<(string, string)>) {
    op.SaveOp? ==> (t.strip(op.film), t.strip(op.watcher)) in P
  }

  lemma StepKeepsSafe(t: Text, s: Store, op: Op, P: iset<(string, string)>)
    requires Safe(s, op.now, P) && NeverFreed(t, P) && SavesWithin(t, op, P)
    requires op.SaveOp? ==> op.id !in s.notes
    ensures Safe(Step(t, s, op), op.now, P)
  {
    match op
    case SaveOp(f, w, r, reaction, themes, id, now, commits) =>
      var film, watcher := t.strip(f), t.strip(w);
      if InRange(r) && !Held(s.unique, KeyOf(film, watcher, now), now) {
        if commits {
          InsertKeepsSafe(s, id, Note(film, watcher, r.value, now, reaction, themes), P);
        } else {
          FailedSaveKeepsSafe(s, film, watcher, now, P);
        }
      }
    case DeleteOp(f, w, now) =>
      var film, watcher := t.strip(f), t.strip(w);
      var m := FirstMatch(t, s.notes, Candidates(s, film), film, watcher);
      FirstMatchMatches(t, s.notes, Candidates(s, film), film, watcher);
      if m.Some? && film != "" && watcher != "" {
        EraseKeepsSafe(t, s, f, watcher, m.value, now, P);
      }
  }

  lemma FailedSaveKeepsSafe(s: Store, film: string, watcher: string, now: nat, P: iset<(string, string)>)
    requires Safe(s, now, P) && !Held(s.unique, KeyOf(film, watcher, now), now)
    ensures Safe(s.(unique := s.unique - {KeyOf(film, watcher, now)}), now, P)
  {
    var key := KeyOf(film, watcher, now);
    if key in s.unique {
      CurrentWeekKeyIsHeld(s.unique, key, now);
    }
    assert s.unique - {key} == s.unique;
  }

  function End(ops: seq<Op>, clock: nat): nat {
    if ops == [] then clock else ops[|ops| - 1].now
  }

  ghost predicate AllWithin(t: Text, ops: seq<Op>, P: iset<(string, string)>) {
    forall op :: op in ops ==> SavesWithin(t, op, P)
  }

  lemma {:induction false} RunKeepsSafe(t: Text, s: Store, ops: seq<Op>, clock: nat, P: iset<(string, string)>)
    requires Safe(s, clock, P) && NeverFreed(t, P) && Legal(t, s, ops, clock) && AllWithin(t, ops, P)
    ensures Safe(After(t, s, ops), End(ops, clock), P)
    decreases |ops|
  {
    if ops != [] {
      TimePasses(s, clock, ops[0].now, P);
      StepKeepsSafe(t, s, ops[0], P);
      RunKeepsSafe(t, Step(t, s, ops[0]), ops[1..], ops[0].now, P);
    }
  }

  lemma RunIsSafe(t: Text, ops: seq<Op>, P: iset<(string, string)>)
    requires NeverFreed(t, P) && Legal(t, EMPTY, ops, 0) && AllWithin(t, ops, P)
    ensures Safe(After(t, EMPTY, ops), End(ops, 0), P)
  {
    EmptyAgrees(FilmSide);
    EmptyAgrees(WatcherSide);
    RunKeepsSafe(t, EMPTY, ops, 0, P);
  }

  /** Two name pairs share a key exactly when one film continues the other across a separator, and its watcher
      is what is left of the other's. */
  lemma NamesCollideExactly(p: (string, string), q: (string, string))
    ensures Join(p.0, p.1) == Join(q.0, q.1)
       <==> || p == q
            || (exists x :: q.0 == p.0 + "|" + x && p.1 == x + "|" + q.1)
            || (exists x :: p.0 == q.0 + "|" + x && q.1 == x + "|" + p.1)
  {
    if Join(p.0, p.1) == Join(q.0, q.1) {
      if |p.0| <= |q.0| {
        SplitJoined(p, q);
      } else {
        SplitJoined(q, p);
      }
    }
  }

  lemma SplitJoined(p: (string, string), q: (string, string))
    requires Join(p.0, p.1) == Join(q.0, q.1) && |p.0| <= |q.0|
    ensures p == q || exists x :: q.0 == p.0 + "|" + x && p.1 == x + "|" + q.1
  {
    var j, n, m := Join(p.0, p.1), |p.0|, |q.0|;
    assert j[..n] == p.0 && j[n + 1..] == p.1 && j[n] == '|';
    assert j[..m] == q.0 && j[m + 1..] == q.1 && j[m] == '|';
    if n < m {
      var x := j[n + 1..m];
      assert q.0 == p.0 + "|" + x && p.1 == x + "|" + q.1;
    }
  }

  /** Film titles without "|" never collide, whatever the watchers are called. */
  lemma SeparatorFreeFilmsNeverCollide(P: iset<(string, string)>)
    requires forall p :: p in P ==> '|' !in p.0
    ensures CollisionFree(P)
  {
    forall p, q | p in P && q in P && Join(p.0, p.1) == Join(q.0, q.1)
      ensures p == q
    {
      var j := Join(p.0, p.1);
      assert j[|p.0|] == '|' && j[|q.0|] == '|';
      assert forall k :: 0 <= k < |p.0| ==> j[k] == p.0[k];
      assert forall k :: 0 <= k < |q.0| ==> j[k] == q.0[k];
      assert |p.0| == |q.0|;
      assert p.0 == j[..|p.0|] == q.0 && p.1 == j[|p.0| + 1..] == q.1;
    }
  }

  // ---- What goes wrong when two name pairs share a key.

  /** A week after `at`. */
  const NEXT_WEEK: nat := 7 * 24 * 3600 * 1_000_000

  /** Save p, and a week later: save q, delete p, save q again. */
  function CollidingRun(p: (string, string), q: (string, string), title: string): seq<Op> {
    [SaveOp(p.0, p.1, Numeric(5.0), "", "", 0, 0, true),
     SaveOp(q.0, q.1, Numeric(5.0), "", "", 1, NEXT_WEEK, true),
     DeleteOp(title, p.1, NEXT_WEEK),
     SaveOp(q.0, q.1, Numeric(5.0), "", "", 2, NEXT_WEEK, true)]
  }

  /** Names as they are stored. */
  function Stripped(t: Text, p: (string, string)): (string, string) {
    (t.strip(p.0), t.strip(p.1))
  }

  /** The deleted note is one of p, and a delete under `title` reaches it. */
  predicate Frees(t: Text, title: string, p: (string, string), q: (string, string)) {
    && Stripped(t, p) != Stripped(t, q)
    && Join(t.strip(p.0), t.strip(p.1)) == Join(t.strip(q.0), t.strip(q.1))
    && t.strip(p.1) != "" && Reaches(t, title, Stripped(t, p), Stripped(t, q))
  }

  lemma CollisionBreaksUniqueness(t: Text, p: (string, string), q: (string, string), title: string)
    requires Frees(t, title, p, q)
    ensures Legal(t, EMPTY, CollidingRun(p, q, title), 0)
    ensures !OnePerWeek(After(t, EMPTY, CollidingRun(p, q, title)).notes)
  {
    var n := Note(t.strip(q.0), t.strip(q.1), 5.0, NEXT_WEEK, "", "");
    var s1, s2 := OneSaved(t, p), TwoSaved(t, p, q);
    var s3 := Erased(s2, 0, NEXT_WEEK);
    CollidingSaves(t, p, q);
    CollidingDelete(t, p, q, title);
    hide Save, Delete, Erased, OneSaved, TwoSaved;
    FollowCollidingRun(t, p, q, title, s1, s2, s3, Inserted(s3, 2, n));
    assert Inserted(s3, 2, n).notes[1] == n && Inserted(s3, 2, n).notes[2] == n;
  }

  function OneSaved(t: Text, p: (string, string)): Store {
    Inserted(EMPTY, 0, Note(t.strip(p.0), t.strip(p.1), 5.0, 0, "", ""))
  }

  function TwoSaved(t: Text, p: (string, string), q: (string, string)): Store {
    Inserted(OneSaved(t, p), 1, Note(t.strip(q.0), t.strip(q.1), 5.0, NEXT_WEEK, "", ""))
  }

  lemma CollidingSaves(t: Text, p: (string, string), q: (string, string))
    requires Join(t.strip(p.0), t.strip(p.1)) == Join(t.strip(q.0), t.strip(q.1))
    ensures 0 in TwoSaved(t, p, q).notes && 1 !in OneSaved(t, p).notes
    ensures var n := Note(t.strip(q.0), t.strip(q.1), 5.0, NEXT_WEEK, "", "");
            var s3 := Erased(TwoSaved(t, p, q), 0, NEXT_WEEK);
            && s3.notes == map[1 := n]
            && Save(t, EMPTY, p.0, p.1, Numeric(5.0), "", "", 0, 0, true).0 == OneSaved(t, p)
            && Save(t, OneSaved(t, p), q.0, q.1, Numeric(5.0), "", "", 1, NEXT_WEEK, true).0 == TwoSaved(t, p, q)
            && Save(t, s3, q.0, q.1, Numeric(5.0), "", "", 2, NEXT_WEEK, true).0 == Inserted(s3, 2, n)
  {
    hide Added, Removed;
    assert WeekStart(0) != WeekStart(NEXT_WEEK);
  }

  lemma TwoSavedIsIndexed(t: Text, p: (string, string), q: (string, string))
    ensures Indexed(TwoSaved(t, p, q)) && TwoSaved(t, p, q).notes.Keys == {0, 1}
  {
    EmptyAgrees(FilmSide);
    EmptyAgrees(WatcherSide);
    hide Agrees, Added;
    InsertKeepsIndexed(EMPTY, 0, Note(t.strip(p.0), t.strip(p.1), 5.0, 0, "", ""));
    InsertKeepsIndexed(OneSaved(t, p), 1, Note(t.strip(q.0), t.strip(q.1), 5.0, NEXT_WEEK, "", ""));
  }

  lemma OnlyTheFirstMatches(t: Text, p: (string, string), q: (string, string), title: string)
    requires Frees(t, title, p, q)
    ensures var notes, f, w := TwoSaved(t, p, q).notes, t.strip(title), t.strip(p.1);
            && Matches(t, notes, 0, f, w) && (forall k :: k in notes && k != 0 ==> !Matches(t, notes, k, f, w))
            && (notes[0].film == f || forall k :: k in notes ==> notes[k].film != f)
  {
    if t.strip(q.1) == t.strip(p.1) {
      SameWatcherSameFilm(Stripped(t, p), Stripped(t, q));
    }
    hide Added, Join;
  }

  lemma CollidingDelete(t: Text, p: (string, string), q: (string, string), title: string)
    requires Frees(t, title, p, q)
    ensures 0 in TwoSaved(t, p, q).notes
    ensures Delete(t, TwoSaved(t, p, q), title, p.1, NEXT_WEEK).0 == Erased(TwoSaved(t, p, q), 0, NEXT_WEEK)
  {
    var s, f, w := TwoSaved(t, p, q), t.strip(title), t.strip(p.1);
    TwoSavedIsIndexed(t, p, q);
    OnlyTheFirstMatches(t, p, q, title);
    hide Indexed, TwoSaved, Erased, Candidates, FirstMatch, Delete;
    CandidatesExactly(s, f, 0);
    OnlyCandidate(t, s, f, w, 0);
    DeleteErasesTarget(t, s, title, p.1, NEXT_WEEK, 0);
  }

  /** When one candidate alone matches, it is the one found. */
  lemma OnlyCandidate(t: Text, s: Store, film: string, watcher: string, id: Member)
    requires id in Candidates(s, film) && Matches(t, s.notes, id, film, watcher)
    requires forall k :: k in s.notes && k != id ==> !Matches(t, s.notes, k, film, watcher)
    ensures FirstMatch(t, s.notes, Candidates(s, film), film, watcher) == Some(id)
  {
    FirstMatchIsFirst(t, s.notes, Candidates(s, film), film, watcher);
  }

  lemma SameWatcherSameFilm(p: (string, string), q: (string, string))
    requires Join(p.0, p.1) == Join(q.0, q.1) && p.1 == q.1
    ensures p == q
  {
    assert |p.0| == |q.0|;
    assert Join(p.0, p.1)[..|p.0|] == p.0;
    assert Join(q.0, q.1)[..|q.0|] == q.0;
  }

  lemma FollowCollidingRun(t: Text, p: (string, string), q: (string, string), title: string,
                           s1: Store, s2: Store, s3: Store, s4: Store)
    requires Save(t, EMPTY, p.0, p.1, Numeric(5.0), "", "", 0, 0, true).0 == s1
    requires Save(t, s1, q.0, q.1, Numeric(5.0), "", "", 1, NEXT_WEEK, true).0 == s2
    requires Delete(t, s2, title, p.1, NEXT_WEEK).0 == s3
    requires Save(t, s3, q.0, q.1, Numeric(5.0), "", "", 2, NEXT_WEEK, true).0 == s4
    requires 1 !in s1.notes && 2 !in s3.notes
    ensures After(t, EMPTY, CollidingRun(p, q, title)) == s4 && Legal(t, EMPTY, CollidingRun(p, q, title), 0)
  {
    hide Save, Delete;
    var ops := CollidingRun(p, q, title);
    FourSteps(t, EMPTY, ops, s1, s2, s3, s4);
  }

  lemma FourSteps(t: Text, s0: Store, ops: seq<Op>, s1: Store, s2: Store, s3: Store, s4: Store)
    requires |ops| == 4
    requires Step(t, s0, ops[0]) == s1 && Step(t, s1, ops[1]) == s2
    requires Step(t, s2, ops[2]) == s3 && Step(t, s3, ops[3]) == s4
    requires ops[0].now <= ops[1].now <= ops[2].now <= ops[3].now
    requires (ops[0].SaveOp? ==> ops[0].id !in s0.notes) && (ops[1].SaveOp? ==> ops[1].id !in s1.notes)
    requires (ops[2].SaveOp? ==> ops[2].id !in s2.notes) && (ops[3].SaveOp? ==> ops[3].id !in s3.notes)
    ensures After(t, s0, ops) == s4 && Legal(t, s0, ops, 0)
  {
    var o1, o2, o3 := ops[1..], ops[2..], ops[3..];
    assert o1[0] == ops[1] && o1[1..] == o2 && o2[0] == ops[2] && o2[1..] == o3 && o3[0] == ops[3] && o3[1..] == [];
    assert After(t, s3, o3) == s4 && After(t, s2, o2) == s4 && After(t, s1, o1) == s4;
    assert Legal(t, s3, o3, ops[2].now);
    assert Legal(t, s2, o2, ops[1].now);
    assert Legal(t, s1, o1, ops[0].now);
  }

  /** The names of P that can be stored: they are what stripping makes of some text. */
  ghost predicate Typed(t: Text, p: (string, string)) {
    exists raw :: Stripped(t, raw) == p
  }

  ghost function Storable(t: Text, P: iset<(string, string)>): iset<(string, string)> {
    iset p | p in P && Typed(t, p)
  }

  lemma SavesAreStorable(t: Text, ops: seq<Op>, P: iset<(string, string)>)
    requires AllWithin(t, ops, P)
    ensures AllWithin(t, ops, Storable(t, P))
  {
    forall op | op in ops && op.SaveOp?
      ensures (t.strip(op.film), t.strip(op.watcher)) in Storable(t, P)
    {
      assert SavesWithin(t, op, P) && Stripped(t, (op.film, op.watcher)) == (t.strip(op.film), t.strip(op.watcher));
    }
  }

  /** The exact condition, for all names, blank ones included: weekly uniqueness holds on every run exactly
      when no storable name pair shares its key with another that a delete can free under it. */
  lemma WeeklyUniqueness(t: Text, P: iset<(string, string)>)
    ensures NeverFreed(t, Storable(t, P))
       <==> forall ops: seq<Op> :: Legal(t, EMPTY, ops, 0) && AllWithin(t, ops, P)
                                   ==> OnePerWeek(After(t, EMPTY, ops).notes)
  {
    if NeverFreed(t, Storable(t, P)) {
      forall ops: seq<Op> | Legal(t, EMPTY, ops, 0) && AllWithin(t, ops, P)
        ensures OnePerWeek(After(t, EMPTY, ops).notes)
      {
        SavesAreStorable(t, ops, P);
        RunIsSafe(t, ops, Storable(t, P));
        OnePerWeekExactly(After(t, EMPTY, ops).notes);
      }
    } else {
      var p, q :| p in Storable(t, P) && q in Storable(t, P) && p != q && Join(p.0, p.1) == Join(q.0, q.1)
                  && CanFree(t, p, q);
      var title :| Reaches(t, title, p, q);
      var rawP :| Stripped(t, rawP) == p;
      var rawQ :| Stripped(t, rawQ) == q;
      assert Frees(t, title, rawP, rawQ);
      CollisionBreaksUniqueness(t, rawP, rawQ, title);
      assert AllWithin(t, CollidingRun(rawP, rawQ, title), P);
    }
  }

  /** Names that are not blank and that stripping leaves alone. */
  ghost predicate Usable(t: Text, p: (string, string)) {
    p.0 != "" && p.1 != "" && t.strip(p.0) == p.0 && t.strip(p.1) == p.1
  }

  /** For usable names that is: no two of them share a key. */
  lemma UsableNamesExactly(t: Text, P: iset<(string, string)>)
    requires forall p :: p in P ==> Usable(t, p)
    ensures NeverFreed(t, Storable(t, P)) <==> CollisionFree(P)
  {
    if !CollisionFree(P) {
      var p, q :| p in P && q in P && Join(p.0, p.1) == Join(q.0, q.1) && p != q;
      assert Stripped(t, p) == p && Stripped(t, q) == q;
      assert p in Storable(t, P) && q in Storable(t, P);
      assert Reaches(t, p.0, p, q);
    }
  }

  ghost predicate LoggedThisWeek(s: Store, film: string, watcher: string, now: nat) {
    exists k :: && k in s.notes && s.notes[k].film == film && s.notes[k].watcher == watcher
                && SameWeek(s.notes[k].at, now)
  }

  /** A save in range is refused as a duplicate exactly when a live note of the same film and watcher
      already stands in the current week. */
  lemma DuplicateMeansLiveNote(t: Text, ops: seq<Op>, P: iset<(string, string)>, film: string, watcher: string,
                               r: Rating, reaction: string, themes: string, id: Member, now: nat, commits: bool)
    requires CollisionFree(P) && Legal(t, EMPTY, ops, 0) && AllWithin(t, ops, P) && End(ops, 0) <= now
    requires (t.strip(film), t.strip(watcher)) in P
    ensures var s := After(t, EMPTY, ops);
            Save(t, s, film, watcher, r, reaction, themes, id, now, commits).1 == Duplicate
            <==> r.Numeric? && 0.0 <= r.value <= 10.0 && LoggedThisWeek(s, t.strip(film), t.strip(watcher), now)
  {
    hide Indexed, After, Inserted;
    var s := After(t, EMPTY, ops);
    var key := KeyOf(t.strip(film), t.strip(watcher), now);
    RunIsSafe(t, ops, P);
    TimePasses(s, End(ops, 0), now, P);
    if Held(s.unique, key, now) {
      assert Backed(s, key);
      WeeksExactly(s.notes[s.unique[key].id].at, now);
    }
    if LoggedThisWeek(s, t.strip(film), t.strip(watcher), now) {
      var k :| && k in s.notes && s.notes[k].film == t.strip(film) && s.notes[k].watcher == t.strip(watcher)
               && SameWeek(s.notes[k].at, now);
      WeeksExactly(s.notes[k].at, now);
      assert Guarded(s, k, now);
      CurrentWeekKeyIsHeld(s.unique, key, now);
    }
  }

  /** After any run without key collisions the reply of a save is decided by its rating, by what is logged for
      its names this week and by whether the transaction commits; if it is saved the notes gain exactly that
      note, and otherwise they stay as they are. */
  lemma SaveSucceedsExactly(t: Text, ops: seq<Op>, P: iset<(string, string)>, film: string, watcher: string,
                            r: Rating, reaction: string, themes: string, id: Member, now: nat, commits: bool)
    requires CollisionFree(P) && Legal(t, EMPTY, ops, 0) && AllWithin(t, ops, P) && End(ops, 0) <= now
    requires (t.strip(film), t.strip(watcher)) in P
    ensures var s := After(t, EMPTY, ops);
            var (s', reply) := Save(t, s, film, watcher, r, reaction, themes, id, now, commits);
            var logged := LoggedThisWeek(s, t.strip(film), t.strip(watcher), now);
            && reply == (if r.NotNumeric? then RatingNotNumeric
                         else if r.value < 0.0 || 10.0 < r.value then RatingOutOfRange
                         else if logged then Duplicate
                         else if !commits then PipelineFailed
                         else Saved)
            && s'.notes == if reply == Saved && r.Numeric?
                           then s.notes[id := Note(t.strip(film), t.strip(watcher), r.value, now, reaction, themes)]
                           else s.notes
  {
    DuplicateMeansLiveNote(t, ops, P, film, watcher, r, reaction, themes, id, now, commits);
    hide After, Legal, AllWithin, LoggedThisWeek, Added;
  }

  /** A note a delete may go for: of the watcher, under the very title or, if no note has that title, under
      one that differs in case only. */
  ghost predicate Deletable(t: Text, notes: Notes, k: Member, film: string, watcher: string) {
    && k in notes && notes[k].watcher == watcher && t.lower(notes[k].film) == t.lower(film)
    && (notes[k].film == film || forall j :: j in notes ==> notes[j].film != film)
  }

  /** One note is older than another by its whole seconds or, within one second, by its id. */
  predicate Older(notes: Notes, a: Member, b: Member)
    requires a in notes && b in notes
  {
    var s, r := notes[a].at / 1_000_000, notes[b].at / 1_000_000;
    s < r || (s == r && a < b)
  }

  /** The deletable note that is found is the newest one. */
  lemma FoundIsNewest(t: Text, s: Store, film: string, watcher: string, id: Member, k: Member)
    requires Indexed(s) && FirstMatch(t, s.notes, Candidates(s, film), film, watcher) == Some(id)
    requires id in s.notes && Deletable(t, s.notes, k, film, watcher) && k != id
    ensures Older(s.notes, k, id)
  {
    CandidatesExactly(s, film, k);
    FirstMatchMatches(t, s.notes, Candidates(s, film), film, watcher);
    var exact := ZGet(s.films.zsets, film);
    assert AgreesAt(s.films, s.notes, FilmSide, film);
    FirstMatchIsHighest(t, s.notes, if RevRanked(exact) == [] then s.all else exact, film, watcher, id, k);
  }

  /** The note a delete takes out: the newest it may go for. */
  ghost predicate IsNewestDeletable(t: Text, notes: Notes, k: Member, film: string, watcher: string) {
    && Deletable(t, notes, k, film, watcher)
    && forall j :: Deletable(t, notes, j, film, watcher) && j != k ==> Older(notes, j, k)
  }

  /** In any store with agreeing indexes the reply of a delete is decided by the names and by whether there is
      a note it may go for; if it is deleted the notes lose exactly the newest such note, and otherwise
      nothing changes. */
  lemma DeleteFindsExactly(t: Text, s: Store, film: string, watcher: string, now: nat)
    requires Indexed(s)
    ensures var f, w := t.strip(film), t.strip(watcher);
            var (s', reply) := Delete(t, s, film, watcher, now);
            && (reply == FilmRequired <==> f == "")
            && (reply == WatcherRequired <==> f != "" && w == "")
            && (reply == Deleted <==> f != "" && w != "" && exists k :: Deletable(t, s.notes, k, f, w))
            && (reply == Deleted ==> exists k :: IsNewestDeletable(t, s.notes, k, f, w) && s'.notes == s.notes - {k})
            && (reply != Deleted ==> s' == s)
            && reply in {FilmRequired, WatcherRequired, NoNoteFound, Deleted}
  {
    var f, w := t.strip(film), t.strip(watcher);
    var ids := Candidates(s, f);
    FirstMatchIsFirst(t, s.notes, ids, f, w);
    FirstMatchMatches(t, s.notes, ids, f, w);
    forall k: Member
      ensures Deletable(t, s.notes, k, f, w) <==> k in ids && Matches(t, s.notes, k, f, w)
    {
      CandidatesExactly(s, f, k);
    }
    var m := FirstMatch(t, s.notes, ids, f, w);
    if m.Some? {
      forall j | Deletable(t, s.notes, j, f, w) && j != m.value
        ensures Older(s.notes, j, m.value)
      {
        FoundIsNewest(t, s, f, w, m.value, j);
      }
      hide Indexed, Deletable, Candidates, FirstMatch, Removed, Older;
      assert IsNewestDeletable(t, s.notes, m.value, f, w);
    }
    hide Indexed, Deletable, Candidates, FirstMatch, Removed;
  }

  // ---- Round trip.

  lemma MoreNames(s: Store, clock: nat, P: iset<(string, string)>, p: (string, string))
    requires Safe(s, clock, P)
    ensures Safe(s, clock, P + iset{p})
  {
  }

  /** Deleting the same names in the week of a save finds the note just saved. */
  lemma JustSavedIsTarget(t: Text, s: Store, id: Member, P: iset<(string, string)>)
    requires id in s.notes && Safe(s, s.notes[id].at, P)
    ensures FirstMatch(t, s.notes, Candidates(s, s.notes[id].film), s.notes[id].film, s.notes[id].watcher) == Some(id)
  {
    var n := s.notes[id];
    assert AgreesAt(s.films, s.notes, FilmSide, n.film);
    var exact := ZGet(s.films.zsets, n.film);
    assert id in exact;
    assert id in RevRanked(exact);
    var ids := Candidates(s, n.film);
    assert Matches(t, s.notes, id, n.film, n.watcher);
    FirstMatchIsFirst(t, s.notes, ids, n.film, n.watcher);
    var m := FirstMatch(t, s.notes, ids, n.film, n.watcher);
    FirstMatchMatches(t, s.notes, ids, n.film, n.watcher);
    if m.value != id {
      assert m.value in exact;
      TargetIsNewest(t, s, n.film, n.watcher, m.value, id);
      assert Guarded(s, m.value, n.at);
      SecondsDecideWeeks(n.at, s.notes[m.value].at, n.at);
      assert false;
    }
  }

  lemma LeaseIsReturned(s: Store, key: DedupKey, l: Lease, now: nat, P: iset<(string, string)>)
    requires Safe(s, now, P) && key.week == WeekStart(now) && !Held(s.unique, key, now)
    ensures s.unique[key := l] - {key} == s.unique
  {
    if key in s.unique {
      CurrentWeekKeyIsHeld(s.unique, key, now);
    }
  }

  lemma EraseUndoesInsert(s: Store, id: Member, n: Note, now: nat, P: iset<(string, string)>)
    requires Safe(s, n.at, P) && id !in s.notes && WeekStart(now) == WeekStart(n.at)
    requires !Held(s.unique, KeyOf(n.film, n.watcher, n.at), n.at)
    ensures Erased(Inserted(s, id, n), id, now) == s
  {
    hide Agrees, Added, Removed;
    var s1 := Inserted(s, id, n);
    var s2 := Erased(s1, id, now);
    assert Indexed(s2) by {
      InsertKeepsIndexed(s, id, n);
      EraseKeepsIndexed(s1, id, now);
    }
    assert s2.notes == s.notes;
    assert s2.films == s.films by { AgreementIsExact(s.films, s2.films, s.notes, FilmSide); }
    assert s2.watchers == s.watchers by { AgreementIsExact(s.watchers, s2.watchers, s.notes, WatcherSide); }
    assert s2.unique == s.unique by {
      LeaseIsReturned(s, KeyOf(n.film, n.watcher, n.at), Lease(id, n.at + WEEK_MICROS), n.at, P);
    }
    assert s2.all == s.all;
  }

  lemma JustSavedIsErased(t: Text, s: Store, id: Member, n: Note, now: nat, P: iset<(string, string)>)
    requires Safe(s, n.at, P) && id !in s.notes && WeekStart(now) == WeekStart(n.at)
    requires !Held(s.unique, KeyOf(n.film, n.watcher, n.at), n.at)
    ensures var s1 := Inserted(s, id, n);
            && FirstMatch(t, s1.notes, Candidates(s1, n.film), n.film, n.watcher) == Some(id)
            && id in s1.notes
            && Erased(s1, id, now) == s
  {
    var more := P + iset{(n.film, n.watcher)};
    assert Safe(Inserted(s, id, n), n.at, more) by {
      MoreNames(s, n.at, P, (n.film, n.watcher));
      InsertKeepsSafe(s, id, n, more);
    }
    JustSavedIsTarget(t, Inserted(s, id, n), id, more);
    EraseUndoesInsert(s, id, n, now, P);
  }

  lemma DeleteErasesTarget(t: Text, s: Store, film: string, watcher: string, now: nat, id: Member)
    requires FirstMatch(t, s.notes, Candidates(s, t.strip(film)), t.strip(film), t.strip(watcher)) == Some(id)
    requires id in s.notes
    ensures Delete(t, s, film, watcher, now)
         == if t.strip(film) == "" then (s, FilmRequired)
            else if t.strip(watcher) == "" then (s, WatcherRequired)
            else (Erased(s, id, now), Deleted)
  {
  }

  lemma SaveThenDeleteFrom(t: Text, s: Store, film: string, watcher: string, r: Rating, reaction: string,
                           themes: string, id: Member, saved: nat, deleted: nat, P: iset<(string, string)>)
    requires Safe(s, saved, P) && id !in s.notes && WeekStart(saved) == WeekStart(deleted)
    requires Save(t, s, film, watcher, r, reaction, themes, id, saved, true).1 == Saved
    ensures var s1 := Save(t, s, film, watcher, r, reaction, themes, id, saved, true).0;
            Delete(t, s1, film, watcher, deleted) == (s, Deleted)
            <==> t.strip(film) != "" && t.strip(watcher) != ""
  {
    hide Delete, Erased, Inserted, FirstMatch, Candidates;
    var n := Note(t.strip(film), t.strip(watcher), r.value, saved, reaction, themes);
    JustSavedIsErased(t, s, id, n, deleted, P);
    DeleteErasesTarget(t, Inserted(s, id, n), film, watcher, deleted, id);
  }

  /** After any run whose names are never freed under one another, a successful save followed in the same week
      by a delete of the same names restores the whole store exactly when neither name is blank. */
  lemma SaveThenDelete(t: Text, ops: seq<Op>, P: iset<(string, string)>, film: string, watcher: string, r: Rating,
                       reaction: string, themes: string, id: Member, saved: nat, deleted: nat)
    requires NeverFreed(t, P) && Legal(t, EMPTY, ops, 0) && AllWithin(t, ops, P)
    requires End(ops, 0) <= saved <= deleted && SameWeek(saved, deleted)
    requires id !in After(t, EMPTY, ops).notes
    requires Save(t, After(t, EMPTY, ops), film, watcher, r, reaction, themes, id, saved, true).1 == Saved
    ensures var s := After(t, EMPTY, ops);
            var s1 := Save(t, s, film, watcher, r, reaction, themes, id, saved, true).0;
            Delete(t, s1, film, watcher, deleted) == (s, Deleted)
            <==> t.strip(film) != "" && t.strip(watcher) != ""
  {
    RunIsSafe(t, ops, P);
    WeeksExactly(saved, deleted);
    TimePasses(After(t, EMPTY, ops), End(ops, 0), saved, P);
    SaveThenDeleteFrom(t, After(t, EMPTY, ops), film, watcher, r, reaction, themes, id, saved, deleted, P);
  }
}
