/** The whole film database: what a merge leaves alone, how many films it adds, the viewer's derived profile,
    and why merging an export twice is merging it once. */
module FilmDatabase {
  import opened FilmMerge

  // ---- What a merge leaves alone.

  /** The watchers of a film other than the viewer. */
  function Others(ws: seq<Watcher>, name: string): seq<Watcher> {
    if ws == [] then []
    else Others(ws[..|ws| - 1], name) + if ws[|ws| - 1].name == name then [] else [ws[|ws| - 1]]
  }

  lemma {:induction false} OthersAppend(a: seq<Watcher>, b: seq<Watcher>, name: string)
    ensures Others(a + b, name) == Others(a, name) + Others(b, name)
  {
    if b == [] {
      assert a + b == a;
    } else {
      assert (a + b)[..|a + b| - 1] == a + b[..|b| - 1];
      OthersAppend(a, b[..|b| - 1], name);
    }
  }

  lemma OthersExactly(w: Watcher, name: string)
    ensures Others([w], name) == if w.name != name then [w] else []
  {
    assert [w][..0] == [];
  }

  lemma OwnWatcherIsNoOther(ws: seq<Watcher>, i: nat, w: Watcher, name: string)
    requires i < |ws| && ws[i].name == name && w.name == name
    ensures Others(ws[i := w], name) == Others(ws, name)
  {
    assert ws == ws[..i] + ([ws[i]] + ws[i + 1..]) && ws[i := w] == ws[..i] + ([w] + ws[i + 1..]);
    OthersAppend(ws[..i], [ws[i]] + ws[i + 1..], name);
    OthersAppend(ws[..i], [w] + ws[i + 1..], name);
    OthersAppend([ws[i]], ws[i + 1..], name);
    OthersAppend([w], ws[i + 1..], name);
    OthersExactly(ws[i], name);
    OthersExactly(w, name);
  }

  lemma WatchersWithKeepsOthers(t: Text, ws: seq<Watcher>, name: string, e: Entry)
    ensures Others(WatchersWith(t, ws, name, e), name) == Others(ws, name)
  {
    var i := IndexOf(ws, name);
    if i < |ws| {
      OwnWatcherIsNoOther(ws, i, WatcherWith(t, ws[i], e), name);
    } else {
      OthersAppend(ws, [NewWatcher(t, name, e)], name);
      OthersExactly(NewWatcher(t, name, e), name);
    }
  }

  /** A film keeps its title, credits, year and consensus, its themes as a prefix, and every other watcher. */
  ghost predicate Preserved(before: Film, after: Film, name: string) {
    && after.title == before.title && after.directors == before.directors && after.year == before.year
    && after.consensus == before.consensus
    && before.themes <= after.themes
    && Others(after.watchers, name) == Others(before.watchers, name)
  }

  lemma {:induction false} FilmMergedPreserves(t: Text, f: Film, name: string, entries: seq<Entry>)
    requires Sane(t)
    ensures Preserved(f, FilmMerged(t, f, name, entries), name)
    decreases |entries|
  {
    if entries != [] {
      var e := entries[0];
      if EntryKey(t, e) == FilmKey(t, f) {
        ThemesWithAbsorbs(t, f.themes, e);
        WatchersWithKeepsOthers(t, f.watchers, name, e);
        FilmMergedPreserves(t, FilmWith(t, f, name, e), name, entries[1..]);
      } else {
        FilmMergedPreserves(t, f, name, entries[1..]);
      }
    }
  }

  /** The films of the base stay, in order, at the front, and each is preserved. */
  lemma MergeIsConservative(t: Text, films: seq<Film>, name: string, entries: seq<Entry>)
    requires Sane(t)
    ensures var merged := Merge(t, films, name, entries);
            |films| <= |merged| && forall i :: 0 <= i < |films| ==> Preserved(films[i], merged[i], name)
  {
    if films == [] {
    } else {
      MergeAt(t, films, name, entries, 0);
    }
    forall i | 0 <= i < |films|
      ensures Preserved(films[i], Merge(t, films, name, entries)[i], name)
    {
      MergeAt(t, films, name, entries, i);
      FilmMergedPreserves(t, films[i], name, entries);
    }
  }

  // ---- How many films a merge adds.

  function FilmIds(t: Text, films: seq<Film>): set<Identity> {
    set i | 0 <= i < |films| :: FilmId(t, films[i])
  }

  function EntryIds(t: Text, entries: seq<Entry>): set<Identity> {
    set i | 0 <= i < |entries| :: EntryId(t, entries[i])
  }

  lemma IdOfFilm(t: Text, films: seq<Film>, i: nat)
    requires i < |films|
    ensures FilmId(t, films[i]) in FilmIds(t, films)
  {
  }

  /** A step keeps what the films are and makes sure that the entry's film is among them. */
  lemma StepKeepsIds(t: Text, films: seq<Film>, name: string, e: Entry)
    requires Decimal(t)
    ensures var films' := Step(t, films, name, e);
            && |films| <= |films'|
            && (forall k :: 0 <= k < |films| ==> FilmId(t, films'[k]) == FilmId(t, films[k]))
            && (forall k :: |films| <= k < |films'| ==> FilmId(t, films'[k]) == EntryId(t, e))
            && (exists k :: 0 <= k < |films'| && FilmId(t, films'[k]) == EntryId(t, e))
            && |films'| == |films| + if EntryId(t, e) in FilmIds(t, films) then 0 else 1
  {
    var films' := Step(t, films, name, e);
    var i := LastIndex(t, films, EntryKey(t, e));
    forall k | 0 <= k < |films|
      ensures FilmKey(t, films[k]) == EntryKey(t, e) <==> FilmId(t, films[k]) == EntryId(t, e)
    {
      KeysMatchExactly(t, films[k].title, films[k].year, e.title, e.year);
    }
    if i < |films| {
      IdOfFilm(t, films, i);
    }
    assert FilmId(t, films'[i]) == EntryId(t, e);
  }

  lemma StepAddsId(t: Text, films: seq<Film>, name: string, e: Entry)
    requires Decimal(t)
    ensures FilmIds(t, Step(t, films, name, e)) == FilmIds(t, films) + {EntryId(t, e)}
    ensures |Step(t, films, name, e)| == |films| + if EntryId(t, e) in FilmIds(t, films) then 0 else 1
  {
    var films', id := Step(t, films, name, e), EntryId(t, e);
    StepKeepsIds(t, films, name, e);
    hide Step, IdentityOf, FilmId, EntryId;
    forall k | k in FilmIds(t, films) + {id}
      ensures k in FilmIds(t, films')
    {
      if k in FilmIds(t, films) {
        var i :| 0 <= i < |films| && FilmId(t, films[i]) == k;
        IdOfFilm(t, films', i);
      } else {
        var i :| 0 <= i < |films'| && FilmId(t, films'[i]) == id;
        IdOfFilm(t, films', i);
      }
    }
    forall k | k in FilmIds(t, films')
      ensures k in FilmIds(t, films) + {id}
    {
      var i :| 0 <= i < |films'| && FilmId(t, films'[i]) == k;
      if i < |films| {
        IdOfFilm(t, films, i);
      }
    }
  }

  lemma EntryIdsUnfold(t: Text, entries: seq<Entry>)
    requires entries != []
    ensures EntryIds(t, entries) == {EntryId(t, entries[0])} + EntryIds(t, entries[1..])
  {
    hide EntryId;
    forall k
      ensures k in EntryIds(t, entries) <==> k == EntryId(t, entries[0]) || k in EntryIds(t, entries[1..])
    {
      if k in EntryIds(t, entries) {
        var i :| 0 <= i < |entries| && EntryId(t, entries[i]) == k;
        assert i > 0 ==> entries[1..][i - 1] == entries[i];
      }
      if k in EntryIds(t, entries[1..]) {
        var i :| 0 <= i < |entries[1..]| && EntryId(t, entries[1..][i]) == k;
        assert entries[i + 1] == entries[1..][i];
      }
    }
  }

  /** How many films the entries name that are not there. */
  function NewFilms(t: Text, films: seq<Film>, entries: seq<Entry>): nat {
    |EntryIds(t, entries) - FilmIds(t, films)|
  }

  lemma OneMoreId(known: set<Identity>, known': set<Identity>, id: Identity, rest: set<Identity>, all: set<Identity>)
    requires known' == known + {id} && all == {id} + rest
    ensures |all - known| == (if id in known then 0 else 1) + |rest - known'|
    ensures known + all == known' + rest
  {
    var later := rest - known';
    if id in known {
      assert all - known == later;
    } else {
      assert all - known == {id} + later;
    }
  }

  lemma StepLeavesNewFilms(t: Text, films: seq<Film>, name: string, entries: seq<Entry>)
    requires Decimal(t) && entries != []
    ensures var films' := Step(t, films, name, entries[0]);
            && |films'| + NewFilms(t, films', entries[1..]) == |films| + NewFilms(t, films, entries)
            && FilmIds(t, films) + EntryIds(t, entries) == FilmIds(t, films') + EntryIds(t, entries[1..])
  {
    StepAddsId(t, films, name, entries[0]);
    EntryIdsUnfold(t, entries);
    OneMoreId(FilmIds(t, films), FilmIds(t, Step(t, films, name, entries[0])), EntryId(t, entries[0]),
              EntryIds(t, entries[1..]), EntryIds(t, entries));
    hide FilmIds, EntryIds, EntryId, Step;
  }

  /** The number of films grows by exactly the number of different titles and years that no film has. */
  lemma {:induction false} MergeAddsNewFilms(t: Text, films: seq<Film>, name: string, entries: seq<Entry>)
    requires Decimal(t)
    ensures |Merge(t, films, name, entries)| == |films| + NewFilms(t, films, entries)
    ensures FilmIds(t, Merge(t, films, name, entries)) == FilmIds(t, films) + EntryIds(t, entries)
    decreases |entries|
  {
    if entries == [] {
      assert EntryIds(t, entries) == {};
    } else {
      hide FilmIds, EntryIds, EntryId, Step, NewFilms;
      StepLeavesNewFilms(t, films, name, entries);
      MergeAddsNewFilms(t, Step(t, films, name, entries[0]), name, entries[1..]);
    }
  }

  /** A film of the same title but another year is left alone, and the entry's film is added beside it. */
  lemma AnotherYearIsAnotherFilm(t: Text, f: Film, name: string, e: Entry)
    requires Decimal(t) && f.year.Some? && e.year.Some? && f.year != e.year
    ensures var merged := Merge(t, [f], name, [e]);
            |merged| == 2 && merged[0] == f && merged[1].title == e.title && merged[1].year == e.year
  {
    KeysMatchExactly(t, f.title, f.year, e.title, e.year);
    hide FilmWith, KeyText;
    assert [e][1..] == [];
    assert Step(t, [f], name, e) == [f] + [FilmWith(t, Blank(e), name, e)];
    FilmWithKeepsNames(t, Blank(e), name, e);
    assert Merge(t, Step(t, [f], name, e), name, []) == Step(t, [f], name, e);
  }

  lemma FilmWithKeepsNames(t: Text, f: Film, name: string, e: Entry)
    ensures FilmWith(t, f, name, e).title == f.title && FilmWith(t, f, name, e).year == f.year
  {
  }

  // ---- The viewer's profile.

  datatype Person = Person(avgRating: real, preferredThemes: seq<string>, style: string, filmsWatched: seq<string>)

  datatype Database = Database(films: seq<Film>, people: map<string, Person>)

  datatype Export = Export(name: string, favorites: seq<string>, entries: seq<Entry>)

  const MAX_PREFERRED: nat := 8

  type Counts = seq<(string, nat)>

  /** `counts[theme] += weight`, keeping the order of first mention. */
  function Bumped(counts: Counts, theme: string, weight: nat): Counts {
    if counts == [] then [(theme, weight)]
    else if counts[0].0 == theme then [(theme, counts[0].1 + weight)] + counts[1..]
    else [counts[0]] + Bumped(counts[1..], theme, weight)
  }

  /** The fallback theme carries no taste and is not counted. */
  function BumpedAll(counts: Counts, themes: seq<string>, weight: nat): Counts
    decreases |themes|
  {
    if themes == [] then counts
    else if themes[0] == "cinema" then BumpedAll(counts, themes[1..], weight)
    else BumpedAll(Bumped(counts, themes[0], weight), themes[1..], weight)
  }

  function ThemesByTitle(t: Text, films: seq<Film>): map<string, seq<string>> {
    if films == [] then map[]
    else ThemesByTitle(t, films[..|films| - 1])[t.lower(films[|films| - 1].title) := films[|films| - 1].themes]
  }

  function Weight(t: Text, favorites: seq<string>, e: Entry): nat {
    (if e.rating.Some? && e.rating.value >= 9.0 then 3 else if e.rating.Some? && e.rating.value >= 7.0 then 2 else 1)
    + if exists i :: 0 <= i < |favorites| && t.lower(favorites[i]) == t.lower(e.title) then 1 else 0
  }

  function Counted(t: Text, x: Export, byTitle: map<string, seq<string>>, entries: seq<Entry>): Counts {
    if entries == [] then []
    else
      var e := entries[|entries| - 1];
      var known := if t.lower(e.title) in byTitle then byTitle[t.lower(e.title)] else [];
      BumpedAll(Counted(t, x, byTitle, entries[..|entries| - 1]), InferThemes(t, e.title, e.review, e.tags + known),
                Weight(t, x.favorites, e))
  }

  /** Position of the first greatest count. */
  function Greatest(counts: Counts): (i: nat)
    requires counts != []
    ensures i < |counts|
    ensures forall k :: 0 <= k < |counts| ==> counts[k].1 <= counts[i].1
    ensures forall k :: 0 <= k < i ==> counts[k].1 < counts[i].1
  {
    if |counts| == 1 then 0
    else
      var j := 1 + Greatest(counts[1..]);
      assert forall k :: 1 <= k < |counts| ==> counts[k] == counts[1..][k - 1];
      if counts[0].1 >= counts[j].1 then 0 else j
  }

  /** `most_common(n)`: by count, ties in order of first mention. */
  function MostCommon(counts: Counts, n: nat): seq<string> {
    if n == 0 || counts == [] then []
    else
      var i := Greatest(counts);
      [counts[i].0] + MostCommon(counts[..i] + counts[i + 1..], n - 1)
  }

  function Preferred(t: Text, x: Export, films: seq<Film>): seq<string> {
    MostCommon(Counted(t, x, ThemesByTitle(t, films), x.entries), MAX_PREFERRED)
  }

  /** The rounded mean rating is left to the host. */
  datatype Host = Host(text: Text, mean: seq<real> -> real)

  function RatingsGiven(entries: seq<Entry>): seq<real> {
    if entries == [] then []
    else (if entries[0].rating.Some? then [entries[0].rating.value] else []) + RatingsGiven(entries[1..])
  }

  function Titles(entries: seq<Entry>): seq<string> {
    seq(|entries|, i requires 0 <= i < |entries| => entries[i].title)
  }

  function Profile(h: Host, x: Export, films: seq<Film>): Person {
    Person(h.mean(RatingsGiven(x.entries)), Preferred(h.text, x, films), "Imported from Letterboxd", Titles(x.entries))
  }

  /** An import without theme signal keeps the curated themes of the profile. */
  function Kept(derived: Person, people: map<string, Person>, name: string): Person {
    if derived.preferredThemes == [] && name in people then derived.(preferredThemes := people[name].preferredThemes)
    else derived
  }

  function MergeDatabase(h: Host, db: Database, x: Export): Database {
    var films := Merge(h.text, db.films, x.name, x.entries);
    Database(films, db.people[x.name := Kept(Profile(h, x, films), db.people, x.name)])
  }

  /** Merging the same export twice equals merging it once: films, watchers, themes and profile. */
  lemma MergeDatabaseTwiceIsOnce(h: Host, db: Database, x: Export)
    requires Sane(h.text)
    ensures MergeDatabase(h, MergeDatabase(h, db, x), x) == MergeDatabase(h, db, x)
  {
    MergeTwiceIsOnce(h.text, db.films, x.name, x.entries);
    hide Merge, Profile;
    var once := MergeDatabase(h, db, x);
    var twice := MergeDatabase(h, once, x);
    assert twice.people[x.name] == once.people[x.name];
    assert twice.people == once.people;
  }

  // ---- The preferred themes are the heaviest ones.

  ghost predicate DistinctNames(counts: Counts) {
    forall i, j :: 0 <= i < j < |counts| ==> counts[i].0 != counts[j].0
  }

  function CountOf(counts: Counts, theme: string): nat {
    if counts == [] then 0 else if counts[0].0 == theme then counts[0].1 else CountOf(counts[1..], theme)
  }

  ghost predicate Mentions(counts: Counts, theme: string) {
    exists i :: 0 <= i < |counts| && counts[i].0 == theme
  }

  lemma {:induction false} BumpedMentions(counts: Counts, theme: string, weight: nat, x: string)
    ensures Mentions(Bumped(counts, theme, weight), x) <==> Mentions(counts, x) || x == theme
  {
    var after := Bumped(counts, theme, weight);
    if counts == [] {
      assert after[0].0 == theme;
    } else {
      MentionsTail(counts, x);
      MentionsTail(after, x);
      if counts[0].0 == theme {
        assert after[1..] == counts[1..];
      } else {
        assert after[1..] == Bumped(counts[1..], theme, weight);
        BumpedMentions(counts[1..], theme, weight, x);
      }
    }
  }

  lemma {:induction false} BumpedCounts(counts: Counts, theme: string, weight: nat, x: string)
    requires DistinctNames(counts)
    ensures DistinctNames(Bumped(counts, theme, weight))
    ensures CountOf(Bumped(counts, theme, weight), x) == CountOf(counts, x) + if x == theme then weight else 0
    ensures Mentions(Bumped(counts, theme, weight), x) <==> Mentions(counts, x) || x == theme
  {
    BumpedMentions(counts, theme, weight, x);
    hide Mentions;
    var after := Bumped(counts, theme, weight);
    if counts == [] {
      assert after[1..] == [];
    } else {
      var tail := counts[1..];
      MentionsNot(counts);
      assert DistinctNames(tail);
      if counts[0].0 == theme {
        assert after[1..] == tail;
        NotMentionedNotCounted(tail, theme);
      } else {
        assert after[1..] == Bumped(tail, theme, weight);
        BumpedCounts(tail, theme, weight, x);
        BumpedMentions(tail, theme, weight, counts[0].0);
      }
      DistinctCons(after);
    }
  }

  lemma DistinctCons(counts: Counts)
    requires counts != [] && DistinctNames(counts[1..]) && !Mentions(counts[1..], counts[0].0)
    ensures DistinctNames(counts)
  {
    var tail := counts[1..];
    forall i, j | 0 <= i < j < |counts|
      ensures counts[i].0 != counts[j].0
    {
      assert counts[j] == tail[j - 1];
      assert i > 0 ==> counts[i] == tail[i - 1];
    }
  }

  lemma MentionsTail(counts: Counts, x: string)
    requires counts != []
    ensures Mentions(counts, x) <==> counts[0].0 == x || Mentions(counts[1..], x)
  {
    var tail := counts[1..];
    if i :| 0 <= i < |counts| && counts[i].0 == x {
      assert i > 0 ==> tail[i - 1] == counts[i];
    }
    if i :| 0 <= i < |tail| && tail[i].0 == x {
      assert counts[i + 1] == tail[i];
    }
  }

  lemma {:induction false} NotMentionedNotCounted(counts: Counts, x: string)
    ensures !Mentions(counts, x) ==> CountOf(counts, x) == 0
  {
    if counts != [] {
      MentionsTail(counts, x);
      NotMentionedNotCounted(counts[1..], x);
    }
  }

  predicate NoDuplicates(themes: seq<string>) {
    themes == [] || (themes[0] !in themes[1..] && NoDuplicates(themes[1..]))
  }

  lemma {:induction false} SnocNoDuplicates(themes: seq<string>, x: string)
    requires NoDuplicates(themes) && x !in themes
    ensures NoDuplicates(themes + [x])
  {
    if themes != [] {
      SnocNoDuplicates(themes[1..], x);
      assert (themes + [x])[1..] == themes[1..] + [x];
    }
  }

  lemma {:induction false} AddedAllNoDuplicates(t: Text, out: seq<string>, themes: seq<string>)
    requires NoDuplicates(out)
    ensures NoDuplicates(AddedAll(t, out, themes))
  {
    if themes != [] {
      var before, last := AddedAll(t, out, themes[..|themes| - 1]), themes[|themes| - 1];
      AddedAllNoDuplicates(t, out, themes[..|themes| - 1]);
      if Clean(t, last) !in before {
        SnocNoDuplicates(before, Clean(t, last));
      }
    }
  }

  /** Inferred themes are listed once each. */
  lemma InferredOnce(t: Text, title: string, review: string, tags: seq<string>)
    ensures NoDuplicates(InferThemes(t, title, review, tags))
  {
    var blob := t.strip(title + " " + review);
    AddedAllNoDuplicates(t, [], tags);
    AddedAllNoDuplicates(t, AddedAll(t, [], tags), if blob == "" then [] else t.keywords(blob));
  }

  lemma {:induction false} BumpedAllCounts(counts: Counts, themes: seq<string>, weight: nat, x: string)
    requires DistinctNames(counts) && NoDuplicates(themes)
    ensures DistinctNames(BumpedAll(counts, themes, weight))
    ensures CountOf(BumpedAll(counts, themes, weight), x)
         == CountOf(counts, x) + if x in themes && x != "cinema" then weight else 0
    ensures Mentions(BumpedAll(counts, themes, weight), x) <==> Mentions(counts, x) || (x in themes && x != "cinema")
    decreases |themes|
  {
    if themes != [] {
      assert x in themes <==> x == themes[0] || x in themes[1..];
      if themes[0] == "cinema" {
        BumpedAllCounts(counts, themes[1..], weight, x);
      } else {
        BumpedCounts(counts, themes[0], weight, x);
        BumpedAllCounts(Bumped(counts, themes[0], weight), themes[1..], weight, x);
      }
    }
  }

  function ThemesOf(t: Text, byTitle: map<string, seq<string>>, e: Entry): seq<string> {
    InferThemes(t, e.title, e.review, e.tags + if t.lower(e.title) in byTitle then byTitle[t.lower(e.title)] else [])
  }

  /** What an entry that shows a theme earns it a point for: being there, a rating of 7 or more, one of 9 or
      more, and being a favourite. */
  datatype Merit = Shown | Liked | Loved | Favourite

  predicate Has(t: Text, favorites: seq<string>, e: Entry, m: Merit) {
    match m
    case Shown => true
    case Liked => e.rating.Some? && e.rating.value >= 7.0
    case Loved => e.rating.Some? && e.rating.value >= 9.0
    case Favourite => exists i :: 0 <= i < |favorites| && t.lower(favorites[i]) == t.lower(e.title)
  }

  /** How many of the entries that show a theme have a merit. */
  function Points(t: Text, favorites: seq<string>, byTitle: map<string, seq<string>>, entries: seq<Entry>, x: string,
                  m: Merit): nat
  {
    if entries == [] then 0
    else
      var e := entries[|entries| - 1];
      Points(t, favorites, byTitle, entries[..|entries| - 1], x, m)
      + if x in ThemesOf(t, byTitle, e) && Has(t, favorites, e, m) then 1 else 0
  }

  /** The weight of a theme: all the points of the entries that show it. */
  function TotalWeight(t: Text, favorites: seq<string>, byTitle: map<string, seq<string>>, entries: seq<Entry>,
                       x: string): nat
  {
    Points(t, favorites, byTitle, entries, x, Shown) + Points(t, favorites, byTitle, entries, x, Liked)
    + Points(t, favorites, byTitle, entries, x, Loved) + Points(t, favorites, byTitle, entries, x, Favourite)
  }

  lemma WeightIsPoints(t: Text, favorites: seq<string>, byTitle: map<string, seq<string>>, entries: seq<Entry>,
                       x: string)
    requires entries != []
    ensures var front, e := entries[..|entries| - 1], entries[|entries| - 1];
            TotalWeight(t, favorites, byTitle, entries, x)
            == TotalWeight(t, favorites, byTitle, front, x)
               + if x in ThemesOf(t, byTitle, e) then Weight(t, favorites, e) else 0
  {
    hide ThemesOf;
  }

  lemma {:induction false} CountsAreWeights(t: Text, x: Export, byTitle: map<string, seq<string>>, entries: seq<Entry>,
                                            theme: string)
    ensures var counts := Counted(t, x, byTitle, entries);
            && DistinctNames(counts)
            && (theme != "cinema" ==> CountOf(counts, theme) == TotalWeight(t, x.favorites, byTitle, entries, theme))
            && (Mentions(counts, theme)
                <==> theme != "cinema" && TotalWeight(t, x.favorites, byTitle, entries, theme) > 0)
  {
    if entries != [] {
      var front, e := entries[..|entries| - 1], entries[|entries| - 1];
      CountsAreWeights(t, x, byTitle, front, theme);
      var themes := ThemesOf(t, byTitle, e);
      var known := if t.lower(e.title) in byTitle then byTitle[t.lower(e.title)] else [];
      InferredOnce(t, e.title, e.review, e.tags + known);
      WeightIsPoints(t, x.favorites, byTitle, entries, theme);
      hide InferThemes, Weight, TotalWeight;
      BumpedAllCounts(Counted(t, x, byTitle, front), themes, Weight(t, x.favorites, e), theme);
      WeightIsPositive(t, x.favorites, e);
    }
  }

  lemma WeightIsPositive(t: Text, favorites: seq<string>, e: Entry)
    ensures Weight(t, favorites, e) > 0
  {
  }

  lemma {:induction false} CountAt(counts: Counts, i: nat)
    requires DistinctNames(counts) && i < |counts|
    ensures CountOf(counts, counts[i].0) == counts[i].1
  {
    if i > 0 {
      assert counts[0].0 != counts[i].0;
      assert counts[1..][i - 1] == counts[i];
      CountAt(counts[1..], i - 1);
    }
  }

  /** Taking one name out leaves the others' counts. */
  lemma {:induction false} WithoutOne(counts: Counts, i: nat, x: string)
    requires DistinctNames(counts) && i < |counts|
    ensures var rest := counts[..i] + counts[i + 1..];
            && DistinctNames(rest)
            && (Mentions(rest, x) <==> Mentions(counts, x) && x != counts[i].0)
            && (x != counts[i].0 ==> CountOf(rest, x) == CountOf(counts, x))
  {
    var rest := counts[..i] + counts[i + 1..];
    if i == 0 {
      assert rest == counts[1..];
      MentionsTail(counts, x);
      MentionsNot(counts);
    } else {
      assert rest[0] == counts[0] && rest[1..] == counts[1..][..i - 1] + counts[1..][i..];
      assert counts[1..][i - 1] == counts[i] && counts[0].0 != counts[i].0;
      WithoutOne(counts[1..], i - 1, x);
      MentionsTail(counts, x);
      MentionsTail(rest, x);
    }
  }

  lemma MentionsNot(counts: Counts)
    requires DistinctNames(counts) && counts != []
    ensures !Mentions(counts[1..], counts[0].0)
  {
    var tail := counts[1..];
    forall i | 0 <= i < |tail|
      ensures tail[i].0 != counts[0].0
    {
      assert tail[i] == counts[i + 1];
    }
  }

  /** The most common names: as many as asked for, all counted, none lighter than one left out. */
  lemma {:induction false} MostCommonAreHeaviest(counts: Counts, n: nat, a: string, b: string)
    requires DistinctNames(counts)
    ensures |MostCommon(counts, n)| == if |counts| <= n then |counts| else n
    ensures a in MostCommon(counts, n) ==> Mentions(counts, a)
    ensures a in MostCommon(counts, n) && b !in MostCommon(counts, n) && Mentions(counts, b)
        ==> CountOf(counts, a) >= CountOf(counts, b)
    decreases n
  {
    if n > 0 && counts != [] {
      var i := Greatest(counts);
      var rest := counts[..i] + counts[i + 1..];
      WithoutOne(counts, i, a);
      WithoutOne(counts, i, b);
      MostCommonAreHeaviest(rest, n - 1, a, b);
      CountAt(counts, i);
      if k :| 0 <= k < |counts| && counts[k].0 == b {
        CountAt(counts, k);
      }
    }
  }

  function Names(counts: Counts): seq<string> {
    seq(|counts|, i requires 0 <= i < |counts| => counts[i].0)
  }

  /** The themes in the order of their first mention, the fallback left out. */
  function FirstMentions(before: seq<string>, themes: seq<string>): seq<string>
    decreases |themes|
  {
    if themes == [] then before
    else
      var skip := themes[0] == "cinema" || themes[0] in before;
      FirstMentions(if skip then before else before + [themes[0]], themes[1..])
  }

  lemma {:induction false} BumpedNames(counts: Counts, theme: string, weight: nat)
    ensures Names(Bumped(counts, theme, weight))
         == if theme in Names(counts) then Names(counts) else Names(counts) + [theme]
  {
    if counts != [] {
      assert Names(counts) == [counts[0].0] + Names(counts[1..]);
      if counts[0].0 == theme {
        assert Names(Bumped(counts, theme, weight)) == [theme] + Names(counts[1..]);
      } else {
        BumpedNames(counts[1..], theme, weight);
        assert Names(Bumped(counts, theme, weight)) == [counts[0].0] + Names(Bumped(counts[1..], theme, weight));
        assert [counts[0].0] + (Names(counts[1..]) + [theme]) == Names(counts) + [theme];
      }
    }
  }

  lemma {:induction false} BumpedAllNames(counts: Counts, themes: seq<string>, weight: nat)
    ensures Names(BumpedAll(counts, themes, weight)) == FirstMentions(Names(counts), themes)
    decreases |themes|
  {
    if themes != [] {
      if themes[0] == "cinema" {
        BumpedAllNames(counts, themes[1..], weight);
      } else {
        BumpedNames(counts, themes[0], weight);
        BumpedAllNames(Bumped(counts, themes[0], weight), themes[1..], weight);
      }
    }
  }

  /** Themes are counted in the order in which the entries first mention them. */
  lemma CountedInOrder(t: Text, x: Export, byTitle: map<string, seq<string>>, entries: seq<Entry>, e: Entry)
    ensures Names(Counted(t, x, byTitle, [])) == []
    ensures Names(Counted(t, x, byTitle, entries + [e]))
         == FirstMentions(Names(Counted(t, x, byTitle, entries)), ThemesOf(t, byTitle, e))
  {
    var all := entries + [e];
    assert all[..|all| - 1] == entries;
    hide InferThemes, Weight;
    BumpedAllNames(Counted(t, x, byTitle, entries), ThemesOf(t, byTitle, e), Weight(t, x.favorites, e));
  }

  /** Whether one theme goes before another: it weighs more or, at one weight, was mentioned first. */
  ghost predicate GoesBefore(counts: Counts, a: string, b: string) {
    exists i, j ::
      && 0 <= i < |counts| && 0 <= j < |counts| && counts[i].0 == a && counts[j].0 == b
      && (counts[i].1 > counts[j].1 || (counts[i].1 == counts[j].1 && i < j))
  }

  lemma GreatestGoesBefore(counts: Counts, b: string)
    requires counts != []
    requires Mentions(counts[..Greatest(counts)] + counts[Greatest(counts) + 1..], b)
    ensures GoesBefore(counts, counts[Greatest(counts)].0, b)
  {
    var i := Greatest(counts);
    var rest := counts[..i] + counts[i + 1..];
    var j :| 0 <= j < |rest| && rest[j].0 == b;
    assert rest[j] == counts[if j < i then j else j + 1];
  }

  lemma OthersKeepOrder(counts: Counts, i: nat, a: string, b: string)
    requires i < |counts| && GoesBefore(counts[..i] + counts[i + 1..], a, b)
    ensures GoesBefore(counts, a, b)
  {
    var rest := counts[..i] + counts[i + 1..];
    var k, l :| && 0 <= k < |rest| && 0 <= l < |rest| && rest[k].0 == a && rest[l].0 == b
                && (rest[k].1 > rest[l].1 || (rest[k].1 == rest[l].1 && k < l));
    var k', l' := if k < i then k else k + 1, if l < i then l else l + 1;
    assert rest[k] == counts[k'] && rest[l] == counts[l'];
  }

  /** The most common names go from the greatest count down and, at one count, by first mention. */
  lemma {:induction false} MostCommonInOrder(counts: Counts, n: nat, p: nat, q: nat)
    requires DistinctNames(counts) && p < q < |MostCommon(counts, n)|
    ensures GoesBefore(counts, MostCommon(counts, n)[p], MostCommon(counts, n)[q])
    decreases n
  {
    var i := Greatest(counts);
    var rest := counts[..i] + counts[i + 1..];
    var a, b := MostCommon(counts, n)[p], MostCommon(counts, n)[q];
    assert MostCommon(counts, n) == [counts[i].0] + MostCommon(rest, n - 1);
    WithoutOne(counts, i, b);
    MostCommonAreHeaviest(rest, n - 1, b, b);
    assert b == MostCommon(rest, n - 1)[q - 1];
    if p == 0 {
      hide GoesBefore, MostCommon, Greatest;
      GreatestGoesBefore(counts, b);
    } else {
      MostCommonInOrder(rest, n - 1, p - 1, q - 1);
      hide GoesBefore, MostCommon, Greatest;
      OthersKeepOrder(counts, i, a, b);
    }
  }

  /** The derived preferences are at most eight themes, all there are if there are fewer, never the fallback,
      each shown by some entry, and no other theme weighs more than one of them. */
  lemma PreferredAreHeaviest(t: Text, x: Export, films: seq<Film>, a: string, b: string)
    ensures var preferred := Preferred(t, x, films);
            var byTitle := ThemesByTitle(t, films);
            var weight := (theme: string) => TotalWeight(t, x.favorites, byTitle, x.entries, theme);
            && |preferred| <= 8
            && (a in preferred ==> a != "cinema" && weight(a) > 0)
            && (|preferred| < 8 && b != "cinema" && weight(b) > 0 ==> b in preferred)
            && (a in preferred && b !in preferred && b != "cinema" ==> weight(a) >= weight(b))
  {
    var byTitle := ThemesByTitle(t, films);
    var counts := Counted(t, x, byTitle, x.entries);
    CountsAreWeights(t, x, byTitle, x.entries, a);
    CountsAreWeights(t, x, byTitle, x.entries, b);
    MostCommonAreHeaviest(counts, 8, a, b);
    hide Counted, TotalWeight, ThemesByTitle;
    if |MostCommon(counts, 8)| < 8 && Mentions(counts, b) {
      AllAreCommon(counts, 8, b);
    }
  }

  /** The derived preferences go from the heaviest to the lightest and, at one weight, by first mention. */
  lemma PreferredInOrder(t: Text, x: Export, films: seq<Film>, p: nat, q: nat)
    requires p < q < |Preferred(t, x, films)|
    ensures GoesBefore(Counted(t, x, ThemesByTitle(t, films), x.entries), Preferred(t, x, films)[p],
                       Preferred(t, x, films)[q])
  {
    hide GoesBefore, MostCommon, Counted;
    CountsAreWeights(t, x, ThemesByTitle(t, films), x.entries, "");
    MostCommonInOrder(Counted(t, x, ThemesByTitle(t, films), x.entries), MAX_PREFERRED, p, q);
  }

  lemma {:induction false} AllAreCommon(counts: Counts, n: nat, b: string)
    requires DistinctNames(counts) && |counts| <= n && Mentions(counts, b)
    ensures b in MostCommon(counts, n)
    decreases n
  {
    var i := Greatest(counts);
    WithoutOne(counts, i, b);
    if counts[i].0 != b {
      AllAreCommon(counts[..i] + counts[i + 1..], n - 1, b);
    }
  }

  // ---- The record the merge leaves for its viewer.

  /** The themes known for a title are those of the last film of that title. */
  lemma {:induction false} ThemesByTitleExactly(t: Text, films: seq<Film>, title: string, i: nat)
    requires i < |films| ==> t.lower(films[i].title) == title
    requires forall k :: i < k < |films| ==> t.lower(films[k].title) != title
    ensures i < |films| ==> title in ThemesByTitle(t, films) && ThemesByTitle(t, films)[title] == films[i].themes
    ensures title in ThemesByTitle(t, films) ==> exists k :: 0 <= k < |films| && t.lower(films[k].title) == title
  {
    if films != [] {
      var front := films[..|films| - 1];
      if i < |front| {
        ThemesByTitleExactly(t, front, title, i);
      } else {
        TitlesAreFilms(t, films, title);
      }
    }
  }

  lemma {:induction false} TitlesAreFilms(t: Text, films: seq<Film>, title: string)
    ensures title in ThemesByTitle(t, films) ==> exists k :: 0 <= k < |films| && t.lower(films[k].title) == title
  {
    if films != [] {
      TitlesAreFilms(t, films[..|films| - 1], title);
    }
  }

  /** The ratings that are averaged are those given, in order. */
  lemma {:induction false} RatingsGivenExactly(a: seq<Entry>, b: seq<Entry>, e: Entry)
    ensures RatingsGiven(a + b) == RatingsGiven(a) + RatingsGiven(b)
    ensures RatingsGiven([e]) == if e.rating.Some? then [e.rating.value] else []
  {
    assert [e][1..] == [];
    if a == [] {
      assert a + b == b;
    } else {
      assert (a + b)[1..] == a[1..] + b;
      RatingsGivenExactly(a[1..], b, e);
    }
  }

  /** The merge rewrites its viewer's record and no other: titles in order, the fixed style, and the derived
      themes, or the curated ones when none are derived. */
  lemma MergedRecordExactly(h: Host, db: Database, x: Export)
    ensures var merged := MergeDatabase(h, db, x);
            var derived := Preferred(h.text, x, merged.films);
            && merged.films == Merge(h.text, db.films, x.name, x.entries)
            && x.name in merged.people
            && var p := merged.people[x.name];
            && p.avgRating == h.mean(RatingsGiven(x.entries)) && p.style == "Imported from Letterboxd"
            && |p.filmsWatched| == |x.entries|
            && (forall i :: 0 <= i < |x.entries| ==> p.filmsWatched[i] == x.entries[i].title)
            && p.preferredThemes == (if derived == [] && x.name in db.people then db.people[x.name].preferredThemes
                                     else derived)
            && forall n :: n != x.name ==>
                 (n in merged.people <==> n in db.people) && (n in db.people ==> merged.people[n] == db.people[n])
  {
    hide Merge, Preferred, RatingsGiven;
  }
}
