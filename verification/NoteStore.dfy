/** The film-note store of Tom Bombadil: a base table of notes, two secondary indexes, the list of all
    notes, and weekly deduplication keys that expire.  `Save` and `Delete` give the meaning of the two
    operations on a snapshot; class `NoteStore` performs them command by command. */
module NoteStore {
  import opened Options
  import opened SortedSets
  import opened NoteIndex

  /** The text operations of the host language.  Nothing is assumed about either. */
  datatype Text = Text(strip: string -> string, lower: string -> string)

  datatype Rating = Numeric(value: real) | NotNumeric

  datatype Reply = Saved | Deleted
                 | RatingNotNumeric | RatingOutOfRange | Duplicate | PipelineFailed
                 | FilmRequired | WatcherRequired | NoNoteFound

  // ---- Time.  Days run from 1970-01-01, a Thursday; weeks start on Monday at midnight UTC.

  const DAY: nat := 24 * 3600
  const WEEK_MICROS: nat := 7 * 24 * 3600 * 1_000_000

  function WeekStart(at: nat): int {
    var day := Seconds(at) / DAY;
    day - (day + 3) % 7
  }

  /** Two moments lie in one calendar week, Monday to Sunday. */
  predicate SameWeek(a: nat, b: nat) {
    (a / 86_400_000_000 + 3) / 7 == (b / 86_400_000_000 + 3) / 7
  }

  /** A week starts on the Monday on or before, and two moments share it exactly when they lie in one week. */
  lemma WeeksExactly(a: nat, b: nat)
    ensures (WeekStart(a) + 3) % 7 == 0 && WeekStart(a) <= a / 86_400_000_000 < WeekStart(a) + 7
    ensures WeekStart(a) == WeekStart(b) <==> SameWeek(a, b)
  {
    DaysOf(a);
    DaysOf(b);
  }

  lemma DaysOf(at: nat)
    ensures Seconds(at) / DAY == at / 86_400_000_000
  {
    var s := Seconds(at);
    assert s == at / 1_000_000;
    assert 86_400 * (s / DAY) <= s < 86_400 * (s / DAY) + 86_400;
    assert 86_400_000_000 * (s / DAY) <= at < 86_400_000_000 * (s / DAY) + 86_400_000_000;
  }

  // ---- Deduplication keys.  The hashed text is film, "|", watcher, "|", week; the week has a fixed
  // format without "|", so the text is told apart by its two parts before and after the last "|".

  datatype DedupKey = DedupKey(names: string, week: int)

  datatype Lease = Lease(id: Member, expires: nat)

  function Join(film: string, watcher: string): string {
    film + "|" + watcher
  }

  function KeyOf(film: string, watcher: string, at: nat): DedupKey {
    DedupKey(Join(film, watcher), WeekStart(at))
  }

  predicate Held(unique: map<DedupKey, Lease>, key: DedupKey, now: nat) {
    key in unique && now < unique[key].expires
  }

  // ---- The meaning of the operations.

  datatype Store = Store(notes: Notes, films: Index, watchers: Index, all: ZSet, unique: map<DedupKey, Lease>)

  const EMPTY := Store(map[], EMPTY_INDEX, EMPTY_INDEX, map[], map[])

  predicate InRange(r: Rating) {
    r.Numeric? && 0.0 <= r.value <= 10.0
  }

  /** Insert a note everywhere it is indexed, under a fresh deduplication lease. */
  function Inserted(s: Store, id: Member, n: Note): Store {
    Store(s.notes[id := n],
          Added(s.films, n.film, id, n),
          Added(s.watchers, n.watcher, id, n),
          s.all[id := Seconds(n.at)],
          s.unique[KeyOf(n.film, n.watcher, n.at) := Lease(id, n.at + WEEK_MICROS)])
  }

  /** A saved note's key is held for seven days, and then it is not. */
  lemma KeyLivesSevenDays(s: Store, id: Member, n: Note, now: nat)
    ensures var unique := Inserted(s, id, n).unique;
            Held(unique, KeyOf(n.film, n.watcher, n.at), now) <==> now < n.at + 604_800_000_000
  {
  }

  /** `id` is the fresh note id; `commits` says whether the transaction goes through. */
  function Save(t: Text, s: Store, film: string, watcher: string, rating: Rating, reaction: string,
                themes: string, id: Member, now: nat, commits: bool): (Store, Reply)
  {
    var f, w := t.strip(film), t.strip(watcher);
    if rating.NotNumeric? then (s, RatingNotNumeric)
    else if !InRange(rating) then (s, RatingOutOfRange)
    else if Held(s.unique, KeyOf(f, w, now), now) then (s, Duplicate)
    else if !commits then (s.(unique := s.unique - {KeyOf(f, w, now)}), PipelineFailed)
    else (Inserted(s, id, Note(f, w, rating.value, now, reaction, themes)), Saved)
  }

  predicate Matches(t: Text, notes: Notes, id: Member, film: string, watcher: string) {
    id in notes && notes[id].watcher == watcher && t.lower(notes[id].film) == t.lower(film)
  }

  function FirstMatch(t: Text, notes: Notes, ids: seq<Member>, film: string, watcher: string): Option<Member> {
    if ids == [] then None
    else if Matches(t, notes, ids[0], film, watcher) then Some(ids[0])
    else FirstMatch(t, notes, ids[1..], film, watcher)
  }

  /** The ids a delete searches: those of the exact title or, when it has none, all. */
  function Candidates(s: Store, film: string): seq<Member> {
    var exact := RevRanked(ZGet(s.films.zsets, film));
    if exact == [] then RevRanked(s.all) else exact
  }

  /** Take a note out everywhere and clear the current week's key for its names. */
  function Erased(s: Store, id: Member, now: nat): Store
    requires id in s.notes
  {
    var n := s.notes[id];
    Store(s.notes - {id},
          Removed(s.films, FilmSide, id, n),
          Removed(s.watchers, WatcherSide, id, n),
          s.all - {id},
          s.unique - {KeyOf(n.film, n.watcher, now)})
  }

  function Delete(t: Text, s: Store, film: string, watcher: string, now: nat): (Store, Reply) {
    var f, w := t.strip(film), t.strip(watcher);
    if f == "" then (s, FilmRequired)
    else if w == "" then (s, WatcherRequired)
    else
      FirstMatchMatches(t, s.notes, Candidates(s, f), f, w);
      match FirstMatch(t, s.notes, Candidates(s, f), f, w)
      case None => (s, NoNoteFound)
      case Some(id) => (Erased(s, id, now), Deleted)
  }

  lemma FirstMatchMatches(t: Text, notes: Notes, ids: seq<Member>, film: string, watcher: string)
    ensures var m := FirstMatch(t, notes, ids, film, watcher);
            m.Some? ==> m.value in ids && Matches(t, notes, m.value, film, watcher)
  {
  }

  lemma {:induction false} FirstMatchIsFirst(t: Text, notes: Notes, ids: seq<Member>, film: string, watcher: string)
    ensures match FirstMatch(t, notes, ids, film, watcher)
            case None => forall id :: id in ids ==> !Matches(t, notes, id, film, watcher)
            case Some(id) =>
              && Matches(t, notes, id, film, watcher)
              && exists i :: 0 <= i < |ids| && ids[i] == id
                             && forall j :: 0 <= j < i ==> !Matches(t, notes, ids[j], film, watcher)
  {
    if ids != [] && !Matches(t, notes, ids[0], film, watcher) {
      FirstMatchIsFirst(t, notes, ids[1..], film, watcher);
      match FirstMatch(t, notes, ids[1..], film, watcher)
      case None =>
      case Some(id) =>
        var i :| 0 <= i < |ids[1..]| && ids[1..][i] == id
                 && forall j :: 0 <= j < i ==> !Matches(t, notes, ids[1..][j], film, watcher);
        forall j | 0 <= j < i + 1
          ensures !Matches(t, notes, ids[j], film, watcher)
        {
          assert j > 0 ==> ids[j] == ids[1..][j - 1];
        }
        assert ids[i + 1] == id;
    }
  }

  // ---- The operations as the program performs them.

  class NoteStore {
    const text: Text
    var notes: Notes
    var films: Index
    var watchers: Index
    var all: ZSet
    var unique: map<DedupKey, Lease>

    ghost function Snapshot(): Store
      reads this
    {
      Store(notes, films, watchers, all, unique)
    }

    constructor (text: Text)
      ensures this.text == text && Snapshot() == EMPTY
    {
      this.text := text;
      notes, all, unique := map[], map[], map[];
      films, watchers := EMPTY_INDEX, EMPTY_INDEX;
    }

    method SaveNote(film: string, watcher: string, rating: Rating, reaction: string, themes: string,
                    id: Member, now: nat, commits: bool) returns (reply: Reply)
      modifies this
      ensures (Snapshot(), reply)
           == Save(text, old(Snapshot()), film, watcher, rating, reaction, themes, id, now, commits)
    {
      if rating.NotNumeric? {
        return RatingNotNumeric;
      }
      if !(0.0 <= rating.value <= 10.0) {
        return RatingOutOfRange;
      }
      var f, w := text.strip(film), text.strip(watcher);
      var key := KeyOf(f, w, now);
      if Held(unique, key, now) {
        return Duplicate;
      }
      ghost var before := unique;
      unique := unique[key := Lease(id, now + WEEK_MICROS)];
      if !commits {
        unique := unique - {key};
        assert unique == before - {key};
        return PipelineFailed;
      }
      InsertTransaction(id, Note(f, w, rating.value, now, reaction, themes));
      return Saved;
    }

    method InsertTransaction(id: Member, n: Note)
      modifies this`notes, this`films, this`watchers, this`all
      ensures notes == old(notes)[id := n] && all == old(all)[id := Seconds(n.at)]
      ensures films == Added(old(films), n.film, id, n)
      ensures watchers == Added(old(watchers), n.watcher, id, n)
    {
      notes := notes[id := n];
      films := films.(zsets := ZAdd(films.zsets, n.film, id, Seconds(n.at)));
      watchers := watchers.(zsets := ZAdd(watchers.zsets, n.watcher, id, Seconds(n.at)));
      all := all[id := Seconds(n.at)];
      films := films.(stats := HIncr(films.stats, n.film, 1, n.rating));
      watchers := watchers.(stats := HIncr(watchers.stats, n.watcher, 1, n.rating));
      films := films.(names := films.names + {n.film});
      watchers := watchers.(names := watchers.names + {n.watcher});
    }

    /** The search loop of a delete. */
    method FindTarget(f: string, w: string) returns (target: Option<Member>)
      ensures target == FirstMatch(text, notes, Candidates(Snapshot(), f), f, w)
    {
      var ids := RevRanked(ZGet(films.zsets, f));
      if ids == [] {
        ids := RevRanked(all);
      }
      for i := 0 to |ids|
        invariant FirstMatch(text, notes, ids, f, w) == FirstMatch(text, notes, ids[i..], f, w)
      {
        if ids[i] in notes {
          var data := notes[ids[i]];
          if data.watcher == w && text.lower(data.film) == text.lower(f) {
            return Some(ids[i]);
          }
        }
        assert ids[i..][1..] == ids[i + 1..];
      }
      return None;
    }

    method DeleteNote(film: string, watcher: string, now: nat) returns (reply: Reply)
      modifies this
      ensures (Snapshot(), reply) == Delete(text, old(Snapshot()), film, watcher, now)
    {
      var f, w := text.strip(film), text.strip(watcher);
      if f == "" {
        return FilmRequired;
      }
      if w == "" {
        return WatcherRequired;
      }
      var target := FindTarget(f, w);
      FirstMatchMatches(text, notes, Candidates(Snapshot(), f), f, w);
      if target.None? {
        return NoNoteFound;
      }
      EraseTarget(target.value, w, now);
      return Deleted;
    }

    /** Everything a delete does once it has found its note. */
    method EraseTarget(id: Member, w: string, now: nat)
      requires id in notes && notes[id].watcher == w
      modifies this
      ensures Snapshot() == Erased(old(Snapshot()), id, now)
    {
      var stored, rating := notes[id].film, notes[id].rating;
      DeleteTransaction(id, stored, w, rating);
      films := DropIfUncounted(films, stored);
      watchers := DropIfUncounted(watchers, w);
      unique := unique - {KeyOf(stored, w, now)};
    }

    method DeleteTransaction(id: Member, film: string, watcher: string, rating: real)
      modifies this`notes, this`films, this`watchers, this`all
      ensures notes == old(notes) - {id} && all == old(all) - {id}
      ensures films == Withdrawn(old(films), film, id, rating)
      ensures watchers == Withdrawn(old(watchers), watcher, id, rating)
    {
      notes := notes - {id};
      films := films.(zsets := ZRem(films.zsets, film, id));
      watchers := watchers.(zsets := ZRem(watchers.zsets, watcher, id));
      all := all - {id};
      films := films.(stats := HIncr(films.stats, film, -1, -rating));
      watchers := watchers.(stats := HIncr(watchers.stats, watcher, -1, -rating));
    }

    /** The clean-up after the transaction, for one index. */
    static method DropIfUncounted(before: Index, name: string) returns (ix: Index)
      ensures ix == Pruned(before, name)
    {
      ix := before;
      if StatGet(ix.stats, name).count <= 0 {
        ix := ix.(stats := ix.stats - {name});
        if |ZGet(ix.zsets, name)| == 0 {
          ix := ix.(zsets := ix.zsets - {name});
          ix := ix.(names := ix.names - {name});
        }
      }
    }
  }
}
