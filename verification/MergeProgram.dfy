/** The merge as the program performs it: on mutable film and watcher records and lists of film themes, copied
    from the base before anything is written.  The methods that merge name nothing of the base in a
    `modifies` clause, so no record or list reachable from it is changed. */
module MergeProgram {
  import opened Options
  import opened FilmMerge
  import opened FilmDatabase

  // ---- The loops over themes.

  method InferThemesOf(t: Text, title: string, review: string, tags: seq<string>) returns (out: seq<string>)
    ensures out == InferThemes(t, title, review, tags)
  {
    out := AddThemes(t, [], tags);
    var blob := t.strip(title + " " + review);
    if blob != "" {
      out := AddThemes(t, out, t.keywords(blob));
    }
    if out == [] {
      out := AddThemes(t, out, ["cinema"]);
      assert ["cinema"][..0] == [];
    }
  }

  method AddThemes(t: Text, before: seq<string>, themes: seq<string>) returns (out: seq<string>)
    ensures out == AddedAll(t, before, themes)
  {
    out := before;
    var seen := set x | x in before;
    for i := 0 to |themes|
      invariant out == AddedAll(t, before, themes[..i])
      invariant forall x :: x in seen <==> x in out
    {
      assert themes[..i + 1][..i] == themes[..i];
      var theme := t.lower(t.strip(themes[i]));
      if theme != "" && theme !in seen {
        seen := seen + {theme};
        out := out + [theme];
      }
    }
    assert themes[..|themes|] == themes;
  }

  method CountThemes(t: Text, x: Export, byTitle: map<string, seq<string>>) returns (counts: Counts)
    ensures counts == Counted(t, x, byTitle, x.entries)
  {
    hide InferThemes, Weight, Bumped;
    counts := [];
    for i := 0 to |x.entries|
      invariant counts == Counted(t, x, byTitle, x.entries[..i])
    {
      var e := x.entries[i];
      assert x.entries[..i + 1][..i] == x.entries[..i];
      var known := if t.lower(e.title) in byTitle then byTitle[t.lower(e.title)] else [];
      var themes := InferThemesOf(t, e.title, e.review, e.tags + known);
      ghost var start := counts;
      assert themes[0..] == themes;
      for k := 0 to |themes|
        invariant BumpedAll(start, themes, Weight(t, x.favorites, e))
               == BumpedAll(counts, themes[k..], Weight(t, x.favorites, e))
      {
        assert themes[k..][0] == themes[k] && themes[k..][1..] == themes[k + 1..];
        if themes[k] != "cinema" {
          counts := Bumped(counts, themes[k], Weight(t, x.favorites, e));
        }
      }
    }
    assert x.entries[..|x.entries|] == x.entries;
  }

  // ---- Records.

  class WatcherRecord {
    var name: string
    var rating: Option<real>
    var themes: seq<string>
    var take: string

    constructor (w: Watcher)
      ensures Value() == w
    {
      name, rating, themes, take := w.name, w.rating, w.themes, w.take;
    }

    function Value(): Watcher
      reads this
    {
      Watcher(name, rating, themes, take)
    }

    /** Overwrite the fields the entry carries. */
    method Overwrite(t: Text, e: Entry)
      modifies this`rating, this`themes, this`take
      ensures Value() == WatcherWith(t, old(Value()), e)
    {
      hide InferThemes;
      var inferred := Inferred(t, e);
      if e.rating.Some? {
        rating := e.rating;
      }
      if inferred != [] && inferred != ["cinema"] {
        themes := inferred;
      }
      if e.review != "" {
        take := e.review;
      }
    }
  }

  function WatcherValues(ws: seq<WatcherRecord>): (vs: seq<Watcher>)
    reads ws
    ensures |vs| == |ws| && forall i :: 0 <= i < |ws| ==> vs[i] == ws[i].Value()
  {
    if ws == [] then [] else WatcherValues(ws[..|ws| - 1]) + [ws[|ws| - 1].Value()]
  }

  /** A film's list of themes, appended to in place. */
  class ThemeList {
    var items: seq<string>

    constructor (items: seq<string>)
      ensures this.items == items
    {
      this.items := items;
    }

    method Append(theme: string)
      modifies this`items
      ensures items == old(items) + [theme]
    {
      items := items + [theme];
    }
  }

  class FilmRecord {
    var title: string
    var directors: string
    var year: Option<int>
    var watchers: seq<WatcherRecord>
    var consensus: string
    var themes: ThemeList

    constructor (f: Film)
      requires f.watchers == []
      ensures Value() == f && watchers == [] && Listed() && fresh(themes)
    {
      title, directors, year, watchers, consensus := f.title, f.directors, f.year, [], f.consensus;
      themes := new ThemeList(f.themes);
    }

    function Value(): Film
      reads this, watchers, themes
    {
      Film(title, directors, year, WatcherValues(watchers), consensus, themes.items)
    }

    /** The records and lists this film is made of. */
    ghost function Parts(): set<object>
      reads this
    {
      {this, themes} + set w | w in watchers
    }

    /** Each watcher record is listed once. */
    ghost predicate Listed()
      reads this
    {
      forall i, j :: 0 <= i < j < |watchers| ==> watchers[i] != watchers[j]
    }

    method AppendWatcher(w: Watcher)
      requires Listed()
      modifies this`watchers
      ensures Listed() && |watchers| == |old(watchers)| + 1 && fresh(Parts() - old(Parts()))
      ensures Value() == old(Value()).(watchers := old(Value()).watchers + [w])
    {
      var record := new WatcherRecord(w);
      watchers := watchers + [record];
      assert watchers[..|watchers| - 1] == old(watchers);
    }

    /** Give the film the inferred themes, or the ones it lacks. */
    method UpdateThemes(t: Text, inferred: seq<string>)
      requires Sane(t) && forall x :: x in inferred ==> t.lower(x) == x
      modifies this`themes, themes
      ensures themes == old(themes) || fresh(themes)
      ensures themes.items == ThemesWith(t, old(themes.items), inferred)
    {
      if themes.items == [] {
        themes := new ThemeList(inferred);
        return;
      }
      var existing := set i | 0 <= i < |themes.items| :: t.lower(themes.items[i]);
      for k := 0 to |inferred|
        invariant themes == old(themes)
        invariant themes.items == United(t, old(themes.items), inferred[..k])
        invariant forall x :: x in existing <==> HasLower(t, themes.items, x)
      {
        var theme, before := inferred[k], themes.items;
        assert inferred[..k + 1][..k] == inferred[..k];
        if theme !in existing && theme != "cinema" {
          assert theme in inferred;
          themes.Append(theme);
          existing := existing + {theme};
          LowerOfSnoc(t, before, theme);
        }
      }
      assert inferred[..|inferred|] == inferred;
    }

    static lemma LowerOfSnoc(t: Text, themes: seq<string>, theme: string)
      requires t.lower(theme) == theme
      ensures forall x :: HasLower(t, themes + [theme], x) <==> HasLower(t, themes, x) || x == theme
    {
      forall x
        ensures HasLower(t, themes + [theme], x) <==> HasLower(t, themes, x) || x == theme
      {
        if i :| 0 <= i < |themes| && t.lower(themes[i]) == x {
          assert (themes + [theme])[i] == themes[i];
        }
        assert (themes + [theme])[|themes|] == theme;
      }
    }

    method FindWatcher(name: string) returns (i: nat)
      ensures i == IndexOf(WatcherValues(watchers), name)
    {
      i := 0;
      while i < |watchers| && watchers[i].name != name
        invariant i <= |watchers|
        invariant forall k :: 0 <= k < i ==> watchers[k].name != name
      {
        i := i + 1;
      }
      if i < |watchers| {
        IndexIs(WatcherValues(watchers), name, i);
      }
    }

    method OverwriteWatcher(t: Text, i: nat, e: Entry)
      requires Listed() && i < |watchers|
      modifies watchers[i]
      ensures WatcherValues(watchers)
           == old(WatcherValues(watchers))[i := WatcherWith(t, old(WatcherValues(watchers))[i], e)]
    {
      hide WatcherWith;
      watchers[i].Overwrite(t, e);
      assert forall k :: 0 <= k < |watchers| && k != i ==> watchers[k].Value() == old(watchers[k].Value());
    }

    /** Overwrite the viewer's record in place, or append one. */
    method UpdateWatcher(t: Text, name: string, e: Entry)
      requires Listed()
      modifies this`watchers, watchers
      ensures Listed() && fresh(Parts() - old(Parts()))
      ensures Value() == old(Value()).(watchers := WatchersWith(t, old(Value()).watchers, name, e))
    {
      hide InferThemes, WatcherWith;
      var i := FindWatcher(name);
      if i == |watchers| {
        AppendWatcher(NewWatcher(t, name, e));
      } else {
        OverwriteWatcher(t, i, e);
      }
    }

    /** Merge one entry into this film. */
    method MergeEntry(t: Text, name: string, e: Entry)
      requires Sane(t) && Listed()
      modifies Parts()
      ensures Listed() && fresh(Parts() - old(Parts()))
      ensures Value() == FilmWith(t, old(Value()), name, e)
    {
      InferredIsClean(t, e);
      UpdateThemes(t, Inferred(t, e));
      hide ThemesWith, InferThemes, WatchersWith;
      ghost var between := Parts();
      assert fresh(between - old(Parts()));
      assert Value() == old(Value()).(themes := themes.items);
      UpdateWatcher(t, name, e);
      assert Parts() - old(Parts()) <= (Parts() - between) + (between - old(Parts()));
    }
  }

  // ---- The whole merge.

  /** Films without a part in common, each part in `own`. */
  ghost predicate Good(films: seq<FilmRecord>, own: set<object>)
    reads own
  {
    && (forall i :: 0 <= i < |films| ==> films[i] in own && films[i].Parts() <= own && films[i].Listed())
    && (forall i, j :: 0 <= i < j < |films| ==> films[i].Parts() !! films[j].Parts())
  }

  /** What some films hold. */
  ghost predicate Hold(films: seq<FilmRecord>, own: set<object>, values: seq<Film>)
    reads own
  {
    Good(films, own) && |values| == |films| && forall i :: 0 <= i < |films| ==> films[i].Value() == values[i]
  }

  /** The film records by key; of several with one key, the last. */
  ghost predicate Indexes(t: Text, byKey: map<string, FilmRecord>, films: seq<FilmRecord>, values: seq<Film>)
    requires |values| == |films|
  {
    forall key: string ::
      && (key in byKey <==> LastIndex(t, values, key) < |films|)
      && (key in byKey ==> byKey[key] == films[LastIndex(t, values, key)])
  }

  method CopyFilm(f: FilmRecord) returns (copied: FilmRecord)
    ensures fresh(copied.Parts()) && copied.Listed() && copied.Value() == f.Value()
  {
    var value := f.Value();
    copied := new FilmRecord(value.(watchers := []));
    hide FilmRecord.Value, WatcherRecord.Value, WatcherValues;
    for i := 0 to |value.watchers|
      invariant |copied.watchers| == i && copied.Listed() && fresh(copied.Parts())
      invariant copied.Value() == value.(watchers := value.watchers[..i])
    {
      assert value.watchers[..i + 1] == value.watchers[..i] + [value.watchers[i]];
      copied.AppendWatcher(value.watchers[i]);
    }
    assert value.watchers[..|value.watchers|] == value.watchers;
  }

  /** A new film, with its first entry merged in. */
  method NewFilm(t: Text, name: string, e: Entry) returns (film: FilmRecord)
    requires Sane(t)
    ensures fresh(film.Parts()) && film.Listed() && film.Value() == FilmWith(t, Blank(e), name, e)
  {
    hide InferThemes;
    film := new FilmRecord(Film(e.title, "", e.year, [], "", Inferred(t, e)));
    film.UpdateWatcher(t, name, e);
  }

  lemma {:induction false} SameKeysSameLast(t: Text, a: seq<Film>, b: seq<Film>, key: string)
    requires |a| == |b| && forall i :: 0 <= i < |a| ==> FilmKey(t, a[i]) == FilmKey(t, b[i])
    ensures LastIndex(t, a, key) == LastIndex(t, b, key)
  {
    if a != [] {
      SameKeysSameLast(t, a[..|a| - 1], b[..|b| - 1], key);
    }
  }

  lemma LastIndexSnoc(t: Text, films: seq<Film>, f: Film, key: string)
    ensures LastIndex(t, films + [f], key)
         == if FilmKey(t, f) == key then |films|
            else if LastIndex(t, films, key) == |films| then |films| + 1
            else LastIndex(t, films, key)
  {
    assert (films + [f])[..|films|] == films;
  }

  /** Adding a film makes it the one found under its key. */
  lemma IndexOfNewFilm(t: Text, byKey: map<string, FilmRecord>, films: seq<FilmRecord>, values: seq<Film>,
                       film: FilmRecord, v: Film)
    requires |values| == |films| && Indexes(t, byKey, films, values)
    ensures Indexes(t, byKey[FilmKey(t, v) := film], films + [film], values + [v])
  {
    forall key: string
      ensures LastIndex(t, values + [v], key)
           == if FilmKey(t, v) == key then |films|
              else if LastIndex(t, values, key) == |films| then |films| + 1
              else LastIndex(t, values, key)
    {
      LastIndexSnoc(t, values, v, key);
    }
  }

  lemma IndexOfChangedFilm(t: Text, byKey: map<string, FilmRecord>, films: seq<FilmRecord>, values: seq<Film>,
                           i: nat, v: Film)
    requires |values| == |films| && Indexes(t, byKey, films, values)
    requires i < |films| && FilmKey(t, v) == FilmKey(t, values[i])
    ensures Indexes(t, byKey, films, values[i := v])
  {
    forall key: string
      ensures LastIndex(t, values[i := v], key) == LastIndex(t, values, key)
    {
      SameKeysSameLast(t, values[i := v], values, key);
    }
  }

  /** A film added to good films, with its parts. */
  lemma OneMoreFilm(films: seq<FilmRecord>, own: set<object>, values: seq<Film>, film: FilmRecord)
    requires Hold(films, own, values) && film.Listed() && film.Parts() !! own
    ensures Hold(films + [film], own + film.Parts(), values + [film.Value()])
  {
    var all := films + [film];
    forall i | 0 <= i < |all|
      ensures i < |films| ==> all[i] == films[i]
      ensures all[i].Parts() <= own + film.Parts() && all[i].Listed()
      ensures all[i].Value() == (values + [film.Value()])[i]
    {
    }
  }

  /** Merge an entry into the film found under its key. */
  method MergeKnown(t: Text, films: seq<FilmRecord>, ghost own: set<object>, ghost values: seq<Film>, ghost i: nat,
                    film: FilmRecord, name: string, e: Entry) returns (ghost more: set<object>)
    requires Sane(t) && Hold(films, own, values) && i < |films| && films[i] == film
    modifies own
    ensures own <= more && fresh(more - own)
    ensures Hold(films, more, values[i := FilmWith(t, values[i], name, e)])
  {
    hide FilmWith;
    film.MergeEntry(t, name, e);
    more := own + film.Parts();
    forall j | 0 <= j < |films| && j != i
      ensures films[j].Parts() == old(films[j].Parts()) && films[j].Listed() && films[j].Value() == values[j]
      ensures films[j].Parts() !! film.Parts()
    {
    }
  }

  /** Add a film for an entry whose key no film has. */
  method AddFilm(t: Text, before: seq<FilmRecord>, ghost own: set<object>, ghost values: seq<Film>, name: string,
                 e: Entry)
    returns (film: FilmRecord, ghost more: set<object>)
    requires Sane(t) && Hold(before, own, values)
    ensures own <= more && fresh(more - own)
    ensures Hold(before + [film], more, values + [FilmWith(t, Blank(e), name, e)])
  {
    film := NewFilm(t, name, e);
    hide FilmWith, Hold;
    more := own + film.Parts();
    OneMoreFilm(before, own, values, film);
  }

  /** Copy all films and index the copies by key. */
  method CopyFilms(t: Text, base: seq<FilmRecord>, ghost values: seq<Film>)
    returns (films: seq<FilmRecord>, byKey: map<string, FilmRecord>, ghost own: set<object>)
    requires |values| == |base| && forall i :: 0 <= i < |base| ==> base[i].Value() == values[i]
    ensures Hold(films, own, values) && fresh(own)
    ensures Indexes(t, byKey, films, values)
  {
    films, byKey, own := [], map[], {};
    hide Hold, Indexes;
    assert Hold(films, own, values[..0]) && Indexes(t, byKey, films, values[..0]) by {
      NothingYet(t, values[..0]);
    }
    for i := 0 to |base|
      invariant Hold(films, own, values[..i]) && |films| == i && fresh(own)
      invariant Indexes(t, byKey, films, values[..i])
      invariant forall k :: 0 <= k < |base| ==> base[k].Value() == values[k]
    {
      var copied;
      copied, own := AddCopy(base[i], films, own, values[..i]);
      assert values[..i + 1] == values[..i] + [values[i]];
      IndexOfNewFilm(t, byKey, films, values[..i], copied, values[i]);
      films, byKey := films + [copied], byKey[FilmKey(t, copied.Value()) := copied];
    }
    assert values[..|base|] == values;
  }

  lemma NothingYet(t: Text, values: seq<Film>)
    requires values == []
    ensures Hold([], {}, values) && Indexes(t, map[], [], values)
  {
  }

  method AddCopy(f: FilmRecord, before: seq<FilmRecord>, ghost own: set<object>, ghost values: seq<Film>)
    returns (film: FilmRecord, ghost more: set<object>)
    requires Hold(before, own, values)
    ensures own <= more && fresh(more - own) && film.Value() == f.Value()
    ensures Hold(before + [film], more, values + [f.Value()])
  {
    film := CopyFilm(f);
    hide Hold;
    more := own + film.Parts();
    OneMoreFilm(before, own, values, film);
  }

  lemma IndexFinds(t: Text, byKey: map<string, FilmRecord>, films: seq<FilmRecord>, values: seq<Film>, name: string,
                   e: Entry)
    requires |values| == |films| && Indexes(t, byKey, films, values)
    ensures EntryKey(t, e) in byKey ==>
              var i := LastIndex(t, values, EntryKey(t, e));
              && i < |films| && films[i] == byKey[EntryKey(t, e)]
              && Step(t, values, name, e) == values[i := FilmWith(t, values[i], name, e)]
              && FilmKey(t, FilmWith(t, values[i], name, e)) == FilmKey(t, values[i])
    ensures EntryKey(t, e) !in byKey ==>
              && Step(t, values, name, e) == values + [FilmWith(t, Blank(e), name, e)]
              && FilmKey(t, FilmWith(t, Blank(e), name, e)) == EntryKey(t, e)
  {
  }

  /** Merge one entry into the films. */
  method MergeOne(t: Text, before: seq<FilmRecord>, index: map<string, FilmRecord>, ghost own: set<object>,
                  ghost values: seq<Film>, name: string, e: Entry)
    returns (films: seq<FilmRecord>, byKey: map<string, FilmRecord>, ghost more: set<object>)
    requires Sane(t) && Hold(before, own, values) && |values| == |before| && Indexes(t, index, before, values)
    modifies own
    ensures own <= more && fresh(more - own)
    ensures Hold(films, more, Step(t, values, name, e)) && |films| == |Step(t, values, name, e)|
    ensures Indexes(t, byKey, films, Step(t, values, name, e))
  {
    IndexFinds(t, index, before, values, name, e);
    hide Hold, Indexes, Step, FilmWith, LastIndex, InferThemes;
    films, byKey := before, index;
    if EntryKey(t, e) in index {
      ghost var i := LastIndex(t, values, EntryKey(t, e));
      more := MergeKnown(t, films, own, values, i, index[EntryKey(t, e)], name, e);
      IndexOfChangedFilm(t, byKey, films, values, i, FilmWith(t, values[i], name, e));
    } else {
      var film;
      film, more := AddFilm(t, films, own, values, name, e);
      IndexOfNewFilm(t, byKey, films, values, film, FilmWith(t, Blank(e), name, e));
      films, byKey := films + [film], byKey[EntryKey(t, e) := film];
    }
  }

  lemma MergeUnfolds(t: Text, films: seq<Film>, name: string, entries: seq<Entry>, k: nat)
    requires k < |entries|
    ensures Merge(t, films, name, entries[k..]) == Merge(t, Step(t, films, name, entries[k]), name, entries[k + 1..])
  {
    assert entries[k..][0] == entries[k] && entries[k..][1..] == entries[k + 1..];
  }

  lemma MergeNothing(t: Text, films: seq<Film>, name: string, entries: seq<Entry>)
    ensures Merge(t, films, name, entries[|entries|..]) == films
  {
  }

  /** Merge the entries into copies of the base films.  There is no `modifies` clause: nothing the caller
      holds, and so nothing reachable from the base, is changed. */
  method MergeFilms(t: Text, base: seq<FilmRecord>, name: string, entries: seq<Entry>, ghost before: seq<Film>)
    returns (films: seq<FilmRecord>, ghost own: set<object>)
    requires Sane(t) && |before| == |base| && forall i :: 0 <= i < |base| ==> base[i].Value() == before[i]
    ensures Hold(films, own, Merge(t, before, name, entries)) && fresh(own)
  {
    var byKey: map<string, FilmRecord>;
    films, byKey, own := CopyFilms(t, base, before);
    ghost var values := before;
    assert entries[0..] == entries;
    hide Hold, Indexes, Step, Merge;
    for k := 0 to |entries|
      invariant |values| == |films| && Hold(films, own, values) && fresh(own)
      invariant Indexes(t, byKey, films, values)
      invariant Merge(t, values, name, entries[k..]) == Merge(t, before, name, entries)
    {
      MergeUnfolds(t, values, name, entries, k);
      films, byKey, own := MergeOne(t, films, byKey, own, values, name, entries[k]);
      values := Step(t, values, name, entries[k]);
    }
    MergeNothing(t, values, name, entries);
  }

  // ---- The people table.

  /** `film_themes_by_title`: of several films with one title, the last. */
  method TitleIndex(t: Text, films: seq<FilmRecord>, ghost own: set<object>, ghost values: seq<Film>)
    returns (byTitle: map<string, seq<string>>)
    requires Hold(films, own, values)
    ensures byTitle == ThemesByTitle(t, values)
  {
    byTitle := map[];
    for i := 0 to |films|
      invariant byTitle == ThemesByTitle(t, values[..i])
    {
      assert values[..i + 1][..i] == values[..i];
      assert films[i].Value() == values[i];
      byTitle := byTitle[t.lower(films[i].title) := films[i].themes.items];
    }
    assert values[..|values|] == values;
  }

  /** The whole merge: films as above, and the viewer's record rewritten in a copy of the people table. */
  method MergeIntoFilmDatabase(h: Host, base: seq<FilmRecord>, people: map<string, Person>, x: Export,
                               ghost before: seq<Film>)
    returns (films: seq<FilmRecord>, merged: map<string, Person>, ghost own: set<object>)
    requires Sane(h.text) && |before| == |base| && forall i :: 0 <= i < |base| ==> base[i].Value() == before[i]
    ensures fresh(own)
    ensures var after := MergeDatabase(h, Database(before, people), x);
            Hold(films, own, after.films) && merged == after.people
  {
    films, own := MergeFilms(h.text, base, x.name, x.entries, before);
    hide Hold, Merge, Counted, MostCommon, ThemesByTitle;
    var byTitle := TitleIndex(h.text, films, own, Merge(h.text, before, x.name, x.entries));
    var counts := CountThemes(h.text, x, byTitle);
    var record := Person(h.mean(RatingsGiven(x.entries)), MostCommon(counts, MAX_PREFERRED),
                         "Imported from Letterboxd", Titles(x.entries));
    if record.preferredThemes == [] && x.name in people && people[x.name].preferredThemes != [] {
      record := record.(preferredThemes := people[x.name].preferredThemes);
    }
    merged := people[x.name := record];
  }
}
