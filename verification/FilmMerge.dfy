/** Merging a Letterboxd export into the film database, on values: what one entry does to the list of films,
    and what all of them do. */
module FilmMerge {
  import opened Options

  /** The host's text operations, and the themes its keyword patterns find in a text, in pattern order. */
  datatype Text = Text(strip: string -> string, lower: string -> string, digits: int -> string,
                       keywords: string -> seq<string>)

  /** What is assumed of them: lower-casing twice is lower-casing once, and "cinema" is clean. */
  ghost predicate Sane(t: Text) {
    && (forall s :: t.lower(t.lower(s)) == t.lower(s))
    && t.lower(t.strip("cinema")) == "cinema"
  }

  datatype Watcher = Watcher(name: string, rating: Option<real>, themes: seq<string>, take: string)

  datatype Film = Film(title: string, directors: string, year: Option<int>, watchers: seq<Watcher>,
                       consensus: string, themes: seq<string>)

  datatype Entry = Entry(title: string, year: Option<int>, rating: Option<real>, review: string, tags: seq<string>)

  // ---- Keys.

  /** Lower-cased title and year; no year and year 0 read the same. */
  function KeyText(t: Text, title: string, year: Option<int>): string {
    t.strip(t.lower(title)) + "|" + if year.Some? && year.value != 0 then t.digits(year.value) else ""
  }

  function EntryKey(t: Text, e: Entry): string {
    KeyText(t, e.title, e.year)
  }

  function FilmKey(t: Text, f: Film): string {
    KeyText(t, f.title, f.year)
  }

  /** What is assumed of the digits of a number: no separator, not empty, and no two numbers alike. */
  ghost predicate Decimal(t: Text) {
    && (forall n :: '|' !in t.digits(n) && t.digits(n) != "")
    && (forall m, n :: t.digits(m) == t.digits(n) ==> m == n)
  }

  /** What makes a film: its title, whatever the case and the blanks around it, and its year, if known. */
  type Identity = (string, int)

  function IdentityOf(t: Text, title: string, year: Option<int>): Identity {
    (t.strip(t.lower(title)), if year.Some? then year.value else 0)
  }

  function EntryId(t: Text, e: Entry): Identity {
    IdentityOf(t, e.title, e.year)
  }

  function FilmId(t: Text, f: Film): Identity {
    IdentityOf(t, f.title, f.year)
  }

  /** Two titles and years have one key exactly when they make one film. */
  lemma KeysMatchExactly(t: Text, a: string, x: Option<int>, b: string, y: Option<int>)
    requires Decimal(t)
    ensures KeyText(t, a, x) == KeyText(t, b, y) <==> IdentityOf(t, a, x) == IdentityOf(t, b, y)
  {
    var p, q := t.strip(t.lower(a)), t.strip(t.lower(b));
    var u := if x.Some? && x.value != 0 then t.digits(x.value) else "";
    var v := if y.Some? && y.value != 0 then t.digits(y.value) else "";
    if p + "|" + u == q + "|" + v {
      LastSeparator(p, u, q, v);
    }
  }

  lemma LastSeparator(p: string, u: string, q: string, v: string)
    requires '|' !in u && '|' !in v && p + "|" + u == q + "|" + v
    ensures p == q && u == v
  {
    var j := p + "|" + u;
    assert j[|p|] == '|' && j[|q|] == '|';
    assert forall k :: |p| < k < |j| ==> j[k] == u[k - |p| - 1];
    assert forall k :: |q| < k < |j| ==> j[k] == v[k - |q| - 1];
    assert |p| == |q|;
    assert p == j[..|p|] == q && u == j[|p| + 1..] == v;
  }

  // ---- Themes.

  function Clean(t: Text, theme: string): string {
    t.lower(t.strip(theme))
  }

  /** Add a theme to a list unless it is blank or already there. */
  function Added(t: Text, out: seq<string>, theme: string): seq<string> {
    if Clean(t, theme) == "" || Clean(t, theme) in out then out else out + [Clean(t, theme)]
  }

  function AddedAll(t: Text, out: seq<string>, themes: seq<string>): seq<string> {
    if themes == [] then out else Added(t, AddedAll(t, out, themes[..|themes| - 1]), themes[|themes| - 1])
  }

  /** Tags first, then keyword hits in title and review, and "cinema" if there is neither. */
  function InferThemes(t: Text, title: string, review: string, tags: seq<string>): seq<string> {
    var blob := t.strip(title + " " + review);
    var out := AddedAll(t, AddedAll(t, [], tags), if blob == "" then [] else t.keywords(blob));
    if out == [] then Added(t, out, "cinema") else out
  }

  function Inferred(t: Text, e: Entry): seq<string> {
    InferThemes(t, e.title, e.review, e.tags)
  }

  predicate HasLower(t: Text, themes: seq<string>, theme: string) {
    exists i :: 0 <= i < |themes| && t.lower(themes[i]) == theme
  }

  /** Append the new themes that carry a signal; a film without themes takes them all. */
  function ThemesWith(t: Text, themes: seq<string>, inferred: seq<string>): seq<string> {
    if themes == [] then inferred else United(t, themes, inferred)
  }

  function United(t: Text, themes: seq<string>, more: seq<string>): seq<string> {
    if more == [] then themes
    else
      var before, last := United(t, themes, more[..|more| - 1]), more[|more| - 1];
      if HasLower(t, before, last) || last == "cinema" then before else before + [last]
  }

  // ---- Watchers.

  /** Overwrite what the entry carries: a rating, themes with signal, a review. */
  function WatcherWith(t: Text, w: Watcher, e: Entry): Watcher {
    Watcher(w.name,
            if e.rating.Some? then e.rating else w.rating,
            if Inferred(t, e) != [] && Inferred(t, e) != ["cinema"] then Inferred(t, e) else w.themes,
            if e.review != "" then e.review else w.take)
  }

  function IndexOf(ws: seq<Watcher>, name: string): (i: nat)
    ensures i <= |ws|
    ensures i < |ws| ==> ws[i].name == name
    ensures forall k :: 0 <= k < i ==> ws[k].name != name
  {
    if ws == [] || ws[0].name == name then 0 else 1 + IndexOf(ws[1..], name)
  }

  function NewWatcher(t: Text, name: string, e: Entry): Watcher {
    Watcher(name, e.rating, Inferred(t, e), e.review)
  }

  function WatchersWith(t: Text, ws: seq<Watcher>, name: string, e: Entry): seq<Watcher> {
    var i := IndexOf(ws, name);
    if i == |ws| then ws + [NewWatcher(t, name, e)] else ws[i := WatcherWith(t, ws[i], e)]
  }

  // ---- One entry.

  function FilmWith(t: Text, f: Film, name: string, e: Entry): Film {
    f.(themes := ThemesWith(t, f.themes, Inferred(t, e)), watchers := WatchersWith(t, f.watchers, name, e))
  }

  function Blank(e: Entry): Film {
    Film(e.title, "", e.year, [], "", [])
  }

  /** Position of the last film with a key, or the number of films. */
  function LastIndex(t: Text, films: seq<Film>, key: string): (i: nat)
    ensures i <= |films|
    ensures i < |films| ==> FilmKey(t, films[i]) == key && forall k :: i < k < |films| ==> FilmKey(t, films[k]) != key
    ensures i == |films| ==> forall k :: 0 <= k < |films| ==> FilmKey(t, films[k]) != key
  {
    if films == [] then 0
    else if FilmKey(t, films[|films| - 1]) == key then |films| - 1
    else
      var i := LastIndex(t, films[..|films| - 1], key);
      if i == |films| - 1 then |films| else i
  }

  /** The entry's film is the last one with its key, or a new one at the end. */
  function Step(t: Text, films: seq<Film>, name: string, e: Entry): seq<Film> {
    var i := LastIndex(t, films, EntryKey(t, e));
    if i == |films| then films + [FilmWith(t, Blank(e), name, e)] else films[i := FilmWith(t, films[i], name, e)]
  }

  function Merge(t: Text, films: seq<Film>, name: string, entries: seq<Entry>): seq<Film>
    decreases |entries|
  {
    if entries == [] then films else Merge(t, Step(t, films, name, entries[0]), name, entries[1..])
  }

  // ---- What the entries do to one film.

  function FilmMerged(t: Text, f: Film, name: string, entries: seq<Entry>): Film
    decreases |entries|
  {
    if entries == [] then f
    else if EntryKey(t, entries[0]) == FilmKey(t, f) then
      FilmMerged(t, FilmWith(t, f, name, entries[0]), name, entries[1..])
    else FilmMerged(t, f, name, entries[1..])
  }

  ghost predicate IsLast(t: Text, films: seq<Film>, i: nat) {
    i < |films| && forall k :: i < k < |films| ==> FilmKey(t, films[k]) != FilmKey(t, films[i])
  }

  lemma StepKeepsKeys(t: Text, films: seq<Film>, name: string, e: Entry)
    ensures var films' := Step(t, films, name, e);
            && |films| <= |films'| <= |films| + 1
            && (forall k :: 0 <= k < |films| ==> FilmKey(t, films'[k]) == FilmKey(t, films[k]))
            && (|films'| > |films| ==> FilmKey(t, films'[|films|]) == EntryKey(t, e)
                                       && forall k :: 0 <= k < |films| ==> FilmKey(t, films[k]) != EntryKey(t, e))
            && (forall k :: 0 <= k < |films| ==> (IsLast(t, films', k) <==> IsLast(t, films, k)))
            && (exists k :: 0 <= k < |films'| && FilmKey(t, films'[k]) == EntryKey(t, e))
  {
    var films' := Step(t, films, name, e);
    var i := LastIndex(t, films, EntryKey(t, e));
    assert FilmKey(t, films'[i]) == EntryKey(t, e);
  }

  /** The merge changes a film only if it is the last with its key, and then by the entries of that key. */
  lemma {:induction false} MergeAt(t: Text, films: seq<Film>, name: string, entries: seq<Entry>, i: nat)
    requires i < |films|
    ensures var merged := Merge(t, films, name, entries);
            && |films| <= |merged|
            && merged[i] == (if IsLast(t, films, i) then FilmMerged(t, films[i], name, entries) else films[i])
            && FilmKey(t, merged[i]) == FilmKey(t, films[i])
            && (IsLast(t, merged, i) <==> IsLast(t, films, i))
    decreases |entries|
  {
    if entries != [] {
      var e, films' := entries[0], Step(t, films, name, entries[0]);
      StepKeepsKeys(t, films, name, e);
      MergeAt(t, films', name, entries[1..], i);
      StepAt(t, films, name, e, i);
    }
  }

  lemma StepAt(t: Text, films: seq<Film>, name: string, e: Entry, i: nat)
    requires i < |films|
    ensures Step(t, films, name, e)[i]
         == if IsLast(t, films, i) && EntryKey(t, e) == FilmKey(t, films[i]) then FilmWith(t, films[i], name, e)
            else films[i]
  {
  }

  /** Every film the merge adds is a blank one with all the entries of its key merged in. */
  lemma {:induction false} MergeAdds(t: Text, films: seq<Film>, name: string, entries: seq<Entry>, i: nat)
    returns (b: Film)
    requires |films| <= i < |Merge(t, films, name, entries)|
    ensures var merged := Merge(t, films, name, entries);
            && merged[i] == FilmMerged(t, b, name, entries) && IsLast(t, merged, i)
            && FilmKey(t, b) == FilmKey(t, merged[i])
            && (exists k :: 0 <= k < |entries| && b == Film(entries[k].title, "", entries[k].year, [], "", []))
            && (forall k :: 0 <= k < |films| ==> FilmKey(t, films[k]) != FilmKey(t, b))
    decreases |entries|
  {
    var e, films' := entries[0], Step(t, films, name, entries[0]);
    StepKeepsKeys(t, films, name, e);
    if i < |films'| {
      b := Blank(e);
      assert b == Film(entries[0].title, "", entries[0].year, [], "", []);
      MergeAt(t, films', name, entries[1..], i);
      assert films'[i] == FilmWith(t, b, name, e);
      assert IsLast(t, films', i);
    } else {
      b := MergeAdds(t, films', name, entries[1..], i);
      var l :| 0 <= l < |entries[1..]|
               && b == Film(entries[1..][l].title, "", entries[1..][l].year, [], "", []);
      assert entries[l + 1] == entries[1..][l];
      var k :| 0 <= k < |films'| && FilmKey(t, films'[k]) == EntryKey(t, e);
      assert FilmKey(t, b) != EntryKey(t, e);
      forall j | 0 <= j < |films|
        ensures FilmKey(t, films[j]) != FilmKey(t, b)
      {
        assert FilmKey(t, films'[j]) == FilmKey(t, films[j]);
      }
    }
  }

  /** A base film changes only if an entry names its title and year, and no later film does. */
  lemma {:induction false} OnlyNamedFilmsChange(t: Text, films: seq<Film>, name: string, entries: seq<Entry>, i: nat)
    requires Decimal(t) && i < |films|
    ensures i < |Merge(t, films, name, entries)|
    ensures Merge(t, films, name, entries)[i] != films[i] ==>
              && (exists k :: 0 <= k < |entries| && EntryId(t, entries[k]) == FilmId(t, films[i]))
              && (forall k :: i < k < |films| ==> FilmId(t, films[k]) != FilmId(t, films[i]))
  {
    MergeAt(t, films, name, entries, i);
    if Merge(t, films, name, entries)[i] != films[i] {
      forall k | i < k < |films|
        ensures FilmId(t, films[k]) != FilmId(t, films[i])
      {
        KeysMatchExactly(t, films[k].title, films[k].year, films[i].title, films[i].year);
      }
      UnnamedFilmStays(t, films[i], name, entries);
    }
  }

  lemma {:induction false} UnnamedFilmStays(t: Text, f: Film, name: string, entries: seq<Entry>)
    requires Decimal(t)
    ensures FilmMerged(t, f, name, entries) != f ==>
              exists k :: 0 <= k < |entries| && EntryId(t, entries[k]) == FilmId(t, f)
    decreases |entries|
  {
    if entries != [] {
      KeysMatchExactly(t, entries[0].title, entries[0].year, f.title, f.year);
      if EntryKey(t, entries[0]) != FilmKey(t, f) {
        UnnamedFilmStays(t, f, name, entries[1..]);
        if k :| 0 <= k < |entries[1..]| && EntryId(t, entries[1..][k]) == FilmId(t, f) {
          assert entries[k + 1] == entries[1..][k];
        }
      }
    }
  }

  // ---- What one entry does to its film.

  lemma {:induction false} UnitedExactly(t: Text, themes: seq<string>, more: seq<string>, x: string)
    requires forall m :: m in more ==> t.lower(m) == m
    ensures x in United(t, themes, more)
       <==> || x in themes
            || (x in more && x != "cinema" && forall i :: 0 <= i < |themes| ==> t.lower(themes[i]) != x)
    ensures themes <= United(t, themes, more)
  {
    if more != [] {
      var front, last := more[..|more| - 1], more[|more| - 1];
      assert more == front + [last];
      UnitedExactly(t, themes, front, x);
      UnitedExactly(t, themes, front, last);
      UnitedHasLower(t, themes, front, last);
    }
  }

  /** A theme is there in some case exactly when it was, or when it was added. */
  lemma {:induction false} UnitedHasLower(t: Text, themes: seq<string>, more: seq<string>, x: string)
    requires forall m :: m in more ==> t.lower(m) == m
    ensures HasLower(t, United(t, themes, more), x) <==> HasLower(t, themes, x) || (x in more && x != "cinema")
  {
    if more != [] {
      var front, last := more[..|more| - 1], more[|more| - 1];
      var before, after := United(t, themes, front), United(t, themes, more);
      assert more == front + [last];
      UnitedHasLower(t, themes, front, x);
      UnitedHasLower(t, themes, front, last);
      assert last in more;
      if i :| 0 <= i < |before| && t.lower(before[i]) == x {
        assert after[i] == before[i];
      }
      if after != before {
        assert after == before + [last] && t.lower(after[|before|]) == last;
      }
    }
  }

  /** One entry gives its film the themes it shows and the film lacks, never the fallback; a film without
      themes gets all of them.  What was there stays in front. */
  lemma EntryThemesExactly(t: Text, f: Film, name: string, e: Entry, x: string)
    requires Sane(t)
    ensures var themes := FilmWith(t, f, name, e).themes;
            if f.themes == [] then themes == InferThemes(t, e.title, e.review, e.tags)
            else
              && f.themes <= themes
              && (x in themes
                  <==> || x in f.themes
                       || (x in InferThemes(t, e.title, e.review, e.tags) && x != "cinema"
                           && forall i :: 0 <= i < |f.themes| ==> t.lower(f.themes[i]) != x))
  {
    InferredIsClean(t, e);
    UnitedExactly(t, f.themes, Inferred(t, e), x);
    hide InferThemes, United, WatchersWith;
  }

  /** One entry leaves its viewer the rating and the review it carries, and the themes if they are more than
      the fallback; what it does not carry stays.  A new viewer is put last. */
  lemma EntryWatcherExactly(t: Text, f: Film, name: string, e: Entry, i: nat)
    requires i <= |f.watchers| && (i < |f.watchers| ==> f.watchers[i].name == name)
    requires forall k :: 0 <= k < i ==> f.watchers[k].name != name
    ensures var ws, themes := FilmWith(t, f, name, e).watchers, InferThemes(t, e.title, e.review, e.tags);
            if i == |f.watchers| then ws == f.watchers + [Watcher(name, e.rating, themes, e.review)]
            else
              var w := f.watchers[i];
              ws == f.watchers[i := Watcher(name,
                                            if e.rating.None? then w.rating else e.rating,
                                            if themes in [[], ["cinema"]] then w.themes else themes,
                                            if e.review == "" then w.take else e.review)]
  {
    hide InferThemes, ThemesWith;
    if i < |f.watchers| {
      IndexIs(f.watchers, name, i);
    }
  }

  // ---- Merging into one film twice.

  /** The entries with a key. */
  function Of(t: Text, entries: seq<Entry>, key: string): seq<Entry> {
    if entries == [] then []
    else (if EntryKey(t, entries[0]) == key then [entries[0]] else []) + Of(t, entries[1..], key)
  }

  lemma {:induction false} OfAppend(t: Text, a: seq<Entry>, b: seq<Entry>, key: string)
    ensures Of(t, a + b, key) == Of(t, a, key) + Of(t, b, key)
  {
    if a == [] {
      assert a + b == b;
    } else {
      assert (a + b)[1..] == a[1..] + b;
      OfAppend(t, a[1..], b, key);
    }
  }

  /** They are the entries that name the film, in order. */
  lemma OfExactly(t: Text, a: seq<Entry>, b: seq<Entry>, e: Entry, f: Film)
    requires Decimal(t)
    ensures Of(t, a + b, FilmKey(t, f)) == Of(t, a, FilmKey(t, f)) + Of(t, b, FilmKey(t, f))
    ensures Of(t, [e], FilmKey(t, f)) == if EntryId(t, e) == FilmId(t, f) then [e] else []
  {
    KeysMatchExactly(t, e.title, e.year, f.title, f.year);
    OfAppend(t, a, b, FilmKey(t, f));
    hide KeyText, IdentityOf;
    assert [e][1..] == [];
  }

  function ThemesMerged(t: Text, themes: seq<string>, es: seq<Entry>): seq<string>
    decreases |es|
  {
    if es == [] then themes else ThemesMerged(t, ThemesWith(t, themes, Inferred(t, es[0])), es[1..])
  }

  function WatchersMerged(t: Text, ws: seq<Watcher>, name: string, es: seq<Entry>): seq<Watcher>
    decreases |es|
  {
    if es == [] then ws else WatchersMerged(t, WatchersWith(t, ws, name, es[0]), name, es[1..])
  }

  function WatcherMerged(t: Text, w: Watcher, es: seq<Entry>): Watcher
    decreases |es|
  {
    if es == [] then w else WatcherMerged(t, WatcherWith(t, w, es[0]), es[1..])
  }

  /** Themes and watchers of a film are merged independently. */
  lemma {:induction false} FilmMergedParts(t: Text, f: Film, name: string, entries: seq<Entry>)
    ensures FilmMerged(t, f, name, entries)
         == f.(themes := ThemesMerged(t, f.themes, Of(t, entries, FilmKey(t, f))),
               watchers := WatchersMerged(t, f.watchers, name, Of(t, entries, FilmKey(t, f))))
    decreases |entries|
  {
    if entries != [] {
      var e, rest := entries[0], Of(t, entries[1..], FilmKey(t, f));
      if EntryKey(t, e) == FilmKey(t, f) {
        FilmMergedParts(t, FilmWith(t, f, name, e), name, entries[1..]);
        assert ([e] + rest)[1..] == rest;
      } else {
        FilmMergedParts(t, f, name, entries[1..]);
        assert [] + rest == rest;
      }
    }
  }

  // Themes.

  lemma {:induction false} AddedAllIsClean(t: Text, out: seq<string>, themes: seq<string>)
    requires Sane(t) && forall x :: x in out ==> t.lower(x) == x
    ensures forall x :: x in AddedAll(t, out, themes) ==> t.lower(x) == x
    ensures |out| <= |AddedAll(t, out, themes)|
  {
    if themes != [] {
      AddedAllIsClean(t, out, themes[..|themes| - 1]);
    }
  }

  /** Inferred themes are lower-case, and there is always one. */
  lemma InferredIsClean(t: Text, e: Entry)
    requires Sane(t)
    ensures Inferred(t, e) != [] && forall x :: x in Inferred(t, e) ==> t.lower(x) == x
  {
    AddedAllIsClean(t, [], e.tags);
    var blob := t.strip(e.title + " " + e.review);
    AddedAllIsClean(t, AddedAll(t, [], e.tags), if blob == "" then [] else t.keywords(blob));
  }

  /** A theme comes out of a list of texts: it is the cleaned form of one, and not blank. */
  predicate ComesFrom(t: Text, themes: seq<string>, x: string) {
    x != "" && exists i :: 0 <= i < |themes| && t.lower(t.strip(themes[i])) == x
  }

  lemma {:induction false} AddedAllExactly(t: Text, out: seq<string>, themes: seq<string>, x: string)
    ensures x in AddedAll(t, out, themes) <==> x in out || ComesFrom(t, themes, x)
    ensures out <= AddedAll(t, out, themes)
  {
    if themes != [] {
      var front, last := themes[..|themes| - 1], themes[|themes| - 1];
      AddedAllExactly(t, out, front, x);
      AddedAllExactly(t, out, front, Clean(t, last));
      if ComesFrom(t, front, x) {
        var i :| 0 <= i < |front| && t.lower(t.strip(front[i])) == x;
        assert t.lower(t.strip(themes[i])) == x;
      }
    }
  }

  /** The themes inferred are exactly those of the tags and of the keyword hits, the tags' first; or the
      fallback when there is neither. */
  lemma InferredExactly(t: Text, title: string, review: string, tags: seq<string>, x: string)
    requires Sane(t)
    ensures var blob := t.strip(title + " " + review);
            var hits := if blob == "" then [] else t.keywords(blob);
            var out := InferThemes(t, title, review, tags);
            && (x in out <==>
                  || ComesFrom(t, tags, x) || ComesFrom(t, hits, x)
                  || (x == "cinema" && forall y :: !ComesFrom(t, tags, y) && !ComesFrom(t, hits, y)))
            && AddedAll(t, [], tags) <= out
  {
    var blob := t.strip(title + " " + review);
    var hits := if blob == "" then [] else t.keywords(blob);
    var fromTags := AddedAll(t, [], tags);
    var all := AddedAll(t, fromTags, hits);
    forall y: string
      ensures y in all <==> ComesFrom(t, tags, y) || ComesFrom(t, hits, y)
    {
      AddedAllExactly(t, [], tags, y);
      AddedAllExactly(t, fromTags, hits, y);
    }
    AddedAllExactly(t, fromTags, hits, "");
    hide ComesFrom, AddedAll;
    if all != [] {
      assert all[0] in all;
    }
  }

  /** Nothing of `inferred` is missing. */
  ghost predicate Absorbs(t: Text, themes: seq<string>, inferred: seq<string>) {
    themes != [] && forall x :: x in inferred ==> x == "cinema" || HasLower(t, themes, x)
  }

  lemma {:induction false} AbsorbedAddsNothing(t: Text, themes: seq<string>, inferred: seq<string>)
    requires Absorbs(t, themes, inferred)
    ensures United(t, themes, inferred) == themes
  {
    if inferred != [] {
      var front, last := inferred[..|inferred| - 1], inferred[|inferred| - 1];
      assert forall x :: x in front ==> x in inferred;
      AbsorbedAddsNothing(t, themes, front);
      assert last in inferred;
    }
  }

  lemma LongerAbsorbs(t: Text, themes: seq<string>, longer: seq<string>, inferred: seq<string>)
    requires Absorbs(t, themes, inferred) && themes <= longer
    ensures Absorbs(t, longer, inferred)
  {
    forall x | x in inferred && x != "cinema"
      ensures HasLower(t, longer, x)
    {
      var i :| 0 <= i < |themes| && t.lower(themes[i]) == x;
      assert longer[i] == themes[i];
    }
  }

  lemma {:induction false} UnitedAbsorbs(t: Text, themes: seq<string>, inferred: seq<string>)
    requires themes != [] && forall x :: x in inferred ==> t.lower(x) == x
    ensures themes <= United(t, themes, inferred) && Absorbs(t, United(t, themes, inferred), inferred)
  {
    if inferred != [] {
      var front, last := inferred[..|inferred| - 1], inferred[|inferred| - 1];
      assert forall x :: x in front ==> x in inferred;
      assert last in inferred;
      UnitedAbsorbs(t, themes, front);
      var before, after := United(t, themes, front), United(t, themes, inferred);
      LongerAbsorbs(t, before, after, front);
      if last != "cinema" && !HasLower(t, before, last) {
        assert after[|before|] == last;
      }
      assert last == "cinema" || HasLower(t, after, last);
      assert inferred == front + [last];
    }
  }

  lemma ThemesWithAbsorbs(t: Text, themes: seq<string>, e: Entry)
    requires Sane(t)
    ensures themes <= ThemesWith(t, themes, Inferred(t, e))
    ensures Absorbs(t, ThemesWith(t, themes, Inferred(t, e)), Inferred(t, e))
  {
    InferredIsClean(t, e);
    var inferred := Inferred(t, e);
    if themes == [] {
      forall x | x in inferred
        ensures HasLower(t, inferred, x)
      {
        var i :| 0 <= i < |inferred| && inferred[i] == x;
        assert t.lower(inferred[i]) == x;
      }
    } else {
      UnitedAbsorbs(t, themes, inferred);
    }
  }

  lemma {:induction false} ThemesMergedAbsorbs(t: Text, themes: seq<string>, es: seq<Entry>)
    requires Sane(t)
    ensures themes <= ThemesMerged(t, themes, es)
    ensures forall i :: 0 <= i < |es| ==> Absorbs(t, ThemesMerged(t, themes, es), Inferred(t, es[i]))
    decreases |es|
  {
    if es != [] {
      var next, merged := ThemesWith(t, themes, Inferred(t, es[0])), ThemesMerged(t, themes, es);
      ThemesWithAbsorbs(t, themes, es[0]);
      ThemesMergedAbsorbs(t, next, es[1..]);
      LongerAbsorbs(t, next, merged, Inferred(t, es[0]));
      forall i | 0 <= i < |es|
        ensures Absorbs(t, merged, Inferred(t, es[i]))
      {
        assert i > 0 ==> es[i] == es[1..][i - 1];
      }
    }
  }

  lemma {:induction false} AbsorbedThemesStay(t: Text, themes: seq<string>, es: seq<Entry>)
    requires forall i :: 0 <= i < |es| ==> Absorbs(t, themes, Inferred(t, es[i]))
    ensures ThemesMerged(t, themes, es) == themes
    decreases |es|
  {
    if es != [] {
      AbsorbedAddsNothing(t, themes, Inferred(t, es[0]));
      forall i | 0 <= i < |es[1..]|
        ensures Absorbs(t, themes, Inferred(t, es[1..][i]))
      {
        assert es[1..][i] == es[i + 1];
      }
      AbsorbedThemesStay(t, themes, es[1..]);
    }
  }

  // One watcher.

  /** The last of some optional values, or a default. */
  function LastOf<T>(xs: seq<Option<T>>, before: T): T {
    if xs == [] then before else LastOf(xs[1..], if xs[0].Some? then xs[0].value else before)
  }

  lemma {:induction false} LastOfTwice<T>(xs: seq<Option<T>>, a: T, b: T)
    ensures LastOf(xs, LastOf(xs, a)) == LastOf(xs, a)
    ensures (exists i :: 0 <= i < |xs| && xs[i].Some?) ==> LastOf(xs, a) == LastOf(xs, b)
    ensures (forall i :: 0 <= i < |xs| ==> xs[i].None?) ==> LastOf(xs, a) == a
  {
    if xs != [] {
      var next := if xs[0].Some? then xs[0].value else a;
      LastOfTwice(xs[1..], next, if xs[0].Some? then xs[0].value else b);
      LastOfTwice(xs[1..], next, LastOf(xs[1..], next));
      assert forall i :: 0 <= i < |xs[1..]| ==> xs[1..][i] == xs[i + 1];
      if exists i :: 0 <= i < |xs[1..]| && xs[1..][i].Some? {
      } else {
        assert forall i :: 0 <= i < |xs[1..]| ==> xs[1..][i].None?;
      }
    }
  }

  function Ratings(es: seq<Entry>): seq<Option<Option<real>>> {
    seq(|es|, i requires 0 <= i < |es| => if es[i].rating.Some? then Some(es[i].rating) else None)
  }

  function Signals(t: Text, es: seq<Entry>): seq<Option<seq<string>>> {
    seq(|es|, i requires 0 <= i < |es| =>
      if Inferred(t, es[i]) != [] && Inferred(t, es[i]) != ["cinema"] then Some(Inferred(t, es[i])) else None)
  }

  function Reviews(es: seq<Entry>): seq<Option<string>> {
    seq(|es|, i requires 0 <= i < |es| => if es[i].review != "" then Some(es[i].review) else None)
  }

  function WatcherFields(t: Text, w: Watcher, es: seq<Entry>): Watcher {
    Watcher(w.name, LastOf(Ratings(es), w.rating), LastOf(Signals(t, es), w.themes), LastOf(Reviews(es), w.take))
  }

  lemma FieldsUnfold(t: Text, w: Watcher, es: seq<Entry>)
    requires es != []
    ensures WatcherFields(t, w, es) == WatcherFields(t, WatcherWith(t, w, es[0]), es[1..])
  {
    hide InferThemes, Inferred;
    assert Ratings(es)[1..] == Ratings(es[1..]);
    assert Signals(t, es)[1..] == Signals(t, es[1..]);
    assert Reviews(es)[1..] == Reviews(es[1..]);
  }

  /** Each field ends up as the last value the entries carry for it. */
  lemma {:induction false} WatcherMergedFields(t: Text, w: Watcher, es: seq<Entry>)
    ensures WatcherMerged(t, w, es) == WatcherFields(t, w, es)
    decreases |es|
  {
    if es != [] {
      FieldsUnfold(t, w, es);
      hide WatcherFields, WatcherWith;
      WatcherMergedFields(t, WatcherWith(t, w, es[0]), es[1..]);
    }
  }

  lemma WatcherMergedTwice(t: Text, w: Watcher, es: seq<Entry>)
    ensures WatcherMerged(t, WatcherMerged(t, w, es), es) == WatcherMerged(t, w, es)
  {
    WatcherMergedFields(t, w, es);
    WatcherMergedFields(t, WatcherMerged(t, w, es), es);
    LastOfTwice(Ratings(es), w.rating, w.rating);
    LastOfTwice(Signals(t, es), w.themes, w.themes);
    LastOfTwice(Reviews(es), w.take, w.take);
  }

  // All watchers.

  /** What a new watcher is before the first entry. */
  function Newcomer(name: string): Watcher {
    Watcher(name, None, ["cinema"], "")
  }

  function Joined(ws: seq<Watcher>, name: string): seq<Watcher> {
    if IndexOf(ws, name) == |ws| then ws + [Newcomer(name)] else ws
  }

  lemma IndexIs(ws: seq<Watcher>, name: string, i: nat)
    requires i < |ws| && ws[i].name == name && forall k :: 0 <= k < i ==> ws[k].name != name
    ensures IndexOf(ws, name) == i
  {
  }

  lemma {:induction false} KnownWatchersMerged(t: Text, ws: seq<Watcher>, name: string, es: seq<Entry>)
    requires IndexOf(ws, name) < |ws|
    ensures WatchersMerged(t, ws, name, es) == ws[IndexOf(ws, name) := WatcherMerged(t, ws[IndexOf(ws, name)], es)]
    decreases |es|
  {
    if es != [] {
      var i := IndexOf(ws, name);
      var next := WatchersWith(t, ws, name, es[0]);
      IndexIs(next, name, i);
      KnownWatchersMerged(t, next, name, es[1..]);
    }
  }

  lemma WatchersMergedJoined(t: Text, ws: seq<Watcher>, name: string, es: seq<Entry>)
    requires Sane(t) && es != []
    ensures var js := Joined(ws, name); var i := IndexOf(ws, name);
            i < |js| && WatchersMerged(t, ws, name, es) == js[i := WatcherMerged(t, js[i], es)]
            && IndexOf(WatchersMerged(t, ws, name, es), name) == i
  {
    var js, i := Joined(ws, name), IndexOf(ws, name);
    var next := WatchersWith(t, ws, name, es[0]);
    FirstEntryJoins(t, ws, name, es[0]);
    hide WatchersWith, Joined, WatcherWith;
    KnownWatchersMerged(t, next, name, es[1..]);
    assert WatcherMerged(t, js[i], es) == WatcherMerged(t, WatcherWith(t, js[i], es[0]), es[1..]);
    WatcherMergedFields(t, js[i], es);
    IndexIs(WatchersMerged(t, ws, name, es), name, i);
  }

  lemma FirstEntryJoins(t: Text, ws: seq<Watcher>, name: string, e: Entry)
    requires Sane(t)
    ensures var js := Joined(ws, name); var i := IndexOf(ws, name); var next := WatchersWith(t, ws, name, e);
            && i < |js| && js[i].name == name && (forall k :: 0 <= k < i ==> js[k].name != name)
            && next == js[i := WatcherWith(t, js[i], e)] && IndexOf(next, name) == i
  {
    InferredIsClean(t, e);
    hide InferThemes, Inferred;
    IndexIs(WatchersWith(t, ws, name, e), name, IndexOf(ws, name));
  }

  lemma WatchersMergedTwice(t: Text, ws: seq<Watcher>, name: string, es: seq<Entry>)
    requires Sane(t)
    ensures WatchersMerged(t, WatchersMerged(t, ws, name, es), name, es) == WatchersMerged(t, ws, name, es)
  {
    if es != [] {
      var js, i := Joined(ws, name), IndexOf(ws, name);
      var once := WatchersMerged(t, ws, name, es);
      WatchersMergedJoined(t, ws, name, es);
      KnownWatchersMerged(t, once, name, es);
      WatcherMergedTwice(t, js[i], es);
    }
  }

  lemma FilmMergedTwice(t: Text, f: Film, name: string, entries: seq<Entry>)
    requires Sane(t)
    ensures FilmMerged(t, FilmMerged(t, f, name, entries), name, entries) == FilmMerged(t, f, name, entries)
  {
    var es := Of(t, entries, FilmKey(t, f));
    FilmMergedParts(t, f, name, entries);
    FilmMergedParts(t, FilmMerged(t, f, name, entries), name, entries);
    ThemesMergedAbsorbs(t, f.themes, es);
    AbsorbedThemesStay(t, ThemesMerged(t, f.themes, es), es);
    WatchersMergedTwice(t, f.watchers, name, es);
  }

  // ---- Merging everything twice.

  ghost predicate HasKey(t: Text, films: seq<Film>, key: string) {
    exists i :: 0 <= i < |films| && FilmKey(t, films[i]) == key
  }

  lemma {:induction false} MergeCoversEntries(t: Text, films: seq<Film>, name: string, entries: seq<Entry>, k: nat)
    requires k < |entries|
    ensures HasKey(t, Merge(t, films, name, entries), EntryKey(t, entries[k]))
    decreases |entries|
  {
    var films' := Step(t, films, name, entries[0]);
    StepKeepsKeys(t, films, name, entries[0]);
    if k == 0 {
      var i :| 0 <= i < |films'| && FilmKey(t, films'[i]) == EntryKey(t, entries[0]);
      MergeAt(t, films', name, entries[1..], i);
    } else {
      assert entries[1..][k - 1] == entries[k];
      MergeCoversEntries(t, films', name, entries[1..], k - 1);
    }
  }

  lemma {:induction false} CoveredMergeAddsNothing(t: Text, films: seq<Film>, name: string, entries: seq<Entry>)
    requires forall k :: 0 <= k < |entries| ==> HasKey(t, films, EntryKey(t, entries[k]))
    ensures |Merge(t, films, name, entries)| == |films|
    decreases |entries|
  {
    if entries != [] {
      var films' := Step(t, films, name, entries[0]);
      StepKeepsKeys(t, films, name, entries[0]);
      assert HasKey(t, films, EntryKey(t, entries[0]));
      forall k | 0 <= k < |entries[1..]|
        ensures HasKey(t, films', EntryKey(t, entries[1..][k]))
      {
        assert entries[1..][k] == entries[k + 1];
        var i :| 0 <= i < |films| && FilmKey(t, films[i]) == EntryKey(t, entries[k + 1]);
        assert FilmKey(t, films'[i]) == EntryKey(t, entries[k + 1]);
      }
      CoveredMergeAddsNothing(t, films', name, entries[1..]);
    }
  }

  /** Merging the same entries twice is merging them once, even when several entries share a film. */
  lemma MergeTwiceIsOnce(t: Text, films: seq<Film>, name: string, entries: seq<Entry>)
    requires Sane(t)
    ensures Merge(t, Merge(t, films, name, entries), name, entries) == Merge(t, films, name, entries)
  {
    var once := Merge(t, films, name, entries);
    forall k | 0 <= k < |entries|
      ensures HasKey(t, once, EntryKey(t, entries[k]))
    {
      MergeCoversEntries(t, films, name, entries, k);
    }
    CoveredMergeAddsNothing(t, once, name, entries);
    forall i | 0 <= i < |once|
      ensures Merge(t, once, name, entries)[i] == once[i]
    {
      MergeAt(t, once, name, entries, i);
      if i < |films| {
        MergeAt(t, films, name, entries, i);
        FilmMergedTwice(t, films[i], name, entries);
      } else {
        var b := MergeAdds(t, films, name, entries, i);
        FilmMergedTwice(t, b, name, entries);
      }
    }
  }
}
