/** The Letterboxd diary sync: entries newer than a watermark are saved, oldest first, and the watermark
    moves to the newest of them. */
module DiarySync {
  import opened Options

  /** `iso` is the date text, empty for an entry without one. */
  datatype Entry = Entry(title: string, year: Option<int>, rating: Option<real>, iso: string)

  // ---- Date texts are compared character by character.

  predicate Leq(a: string, b: string) {
    a == "" || (b != "" && (a[0] < b[0] || (a[0] == b[0] && Leq(a[1..], b[1..]))))
  }

  predicate Less(a: string, b: string) {
    Leq(a, b) && a != b
  }

  lemma {:induction false} LeqIsTotalOrder(a: string, b: string, c: string)
    ensures Leq(a, a) && (Leq(a, b) || Leq(b, a))
    ensures Leq(a, b) && Leq(b, a) ==> a == b
    ensures Leq(a, b) && Leq(b, c) ==> Leq(a, c)
  {
    if a != "" {
      if b != "" {
        LeqIsTotalOrder(a[1..], b[1..], if c == "" then "" else c[1..]);
        assert a[0] == b[0] && a[1..] == b[1..] ==> a == [a[0]] + a[1..] == [b[0]] + b[1..] == b;
      } else {
        LeqIsTotalOrder(a[1..], "", "");
      }
    }
  }

  /** One text comes before another exactly when it begins it, or has the smaller character where they first
      differ. */
  lemma {:induction false} LeqExactly(a: string, b: string)
    ensures Leq(a, b) <==> a <= b || exists i :: 0 <= i < |a| && i < |b| && a[..i] == b[..i] && a[i] < b[i]
  {
    if a != "" && b != "" {
      var at, bt := a[1..], b[1..];
      LeqExactly(at, bt);
      if a[0] == b[0] {
        assert a == [a[0]] + at && b == [b[0]] + bt;
        if i :| 0 <= i < |at| && i < |bt| && at[..i] == bt[..i] && at[i] < bt[i] {
          assert a[..i + 1] == [a[0]] + at[..i] == b[..i + 1];
          assert a[i + 1] < b[i + 1];
        }
        if i :| 0 <= i < |a| && i < |b| && a[..i] == b[..i] && a[i] < b[i] {
          assert at[..i - 1] == a[..i][1..] == b[..i][1..] == bt[..i - 1];
          assert at[i - 1] < bt[i - 1];
        }
      } else {
        assert a[..0] == b[..0];
        if i :| 0 <= i < |a| && i < |b| && a[..i] == b[..i] && a[i] < b[i] && i > 0 {
          assert a[..i][0] == b[..i][0];
        }
      }
    }
  }

  /** The later of a possible date and a date. */
  function Later(mark: Option<string>, iso: string): Option<string> {
    if mark.Some? && Leq(iso, mark.value) then mark else Some(iso)
  }

  // ---- One run.

  /** Whether an entry is dated after the watermark. */
  predicate IsNew(mark: Option<string>, e: Entry) {
    e.iso != "" && !(mark.Some? && Leq(e.iso, mark.value))
  }

  function NewEntries(mark: Option<string>, feed: seq<Entry>): seq<Entry> {
    if feed == [] then []
    else NewEntries(mark, feed[..|feed| - 1]) + if IsNew(mark, feed[|feed| - 1]) then [feed[|feed| - 1]] else []
  }

  /** Put an entry behind all that are not dated later: the stable sort, one entry at a time. */
  function Inserted(sorted: seq<Entry>, e: Entry): seq<Entry> {
    if sorted == [] || Leq(sorted[|sorted| - 1].iso, e.iso) then sorted + [e]
    else Inserted(sorted[..|sorted| - 1], e) + [sorted[|sorted| - 1]]
  }

  function Sorted(es: seq<Entry>): seq<Entry> {
    if es == [] then [] else Inserted(Sorted(es[..|es| - 1]), es[|es| - 1])
  }

  function Rated(es: seq<Entry>): seq<Entry> {
    if es == [] then []
    else Rated(es[..|es| - 1]) + if es[|es| - 1].rating.Some? then [es[|es| - 1]] else []
  }

  /** The entries handed to `save_note`, in order. */
  function Passed(mark: Option<string>, feed: seq<Entry>): seq<Entry> {
    Rated(Sorted(NewEntries(mark, feed)))
  }

  /** One run: its feed and, if it does not get to write the watermark, how many entries it hands on before
      it is cut off. */
  datatype Run = Run(feed: seq<Entry>, stopsAfter: Option<nat>)

  predicate Completes(r: Run) {
    r.stopsAfter.None?
  }

  /** The entries a run hands on: those it should, or the first of them. */
  function HandedOn(mark: Option<string>, r: Run): seq<Entry> {
    var all := Passed(mark, r.feed);
    if r.stopsAfter.None? || |all| < r.stopsAfter.value then all else all[..r.stopsAfter.value]
  }

  /** The latest date among the new entries, or the old watermark. */
  function Moved(mark: Option<string>, es: seq<Entry>): Option<string> {
    if es == [] then mark else Later(Moved(mark, es[..|es| - 1]), es[|es| - 1].iso)
  }

  function MarkAfter(mark: Option<string>, feed: seq<Entry>): Option<string> {
    Moved(mark, NewEntries(mark, feed))
  }

  function MarkAfterRun(mark: Option<string>, r: Run): Option<string> {
    if Completes(r) then MarkAfter(mark, r.feed) else mark
  }

  datatype SyncResult = SyncResult(fetched: nat, new_: nat, skipped: nat, saved: nat, failed: nat)

  class DiarySync {
    var watermark: Option<string>
    /** All entries ever handed to `save_note`. */
    ghost var passed: seq<Entry>

    constructor ()
      ensures watermark == None && passed == []
    {
      watermark, passed := None, [];
    }

    /** `saves(i)` is the answer of the i-th `save_note` of this run.  A run that is cut off has no result. */
    method RunSync(run: Run, saves: nat -> bool) returns (r: Option<SyncResult>)
      modifies this
      ensures watermark == MarkAfterRun(old(watermark), run)
      ensures passed == old(passed) + HandedOn(old(watermark), run)
      ensures r.Some? <==> Completes(run)
      ensures r.Some? ==>
                && r.value.fetched == |run.feed| == r.value.new_ + r.value.skipped
                && r.value.new_ == |NewEntries(old(watermark), run.feed)|
                && r.value.saved + r.value.failed == |HandedOn(old(watermark), run)|
                && r.value.saved == |set i: nat | i < |HandedOn(old(watermark), run)| && saves(i)|
    {
      var feed := run.feed;
      var recent, skipped := [], 0;
      for i := 0 to |feed|
        invariant recent == NewEntries(watermark, feed[..i]) && |recent| + skipped == i
      {
        assert feed[..i + 1][..i] == feed[..i];
        var key := feed[i].iso;
        if key == "" || (watermark.Some? && Leq(key, watermark.value)) {
          skipped := skipped + 1;
        } else {
          recent := recent + [feed[i]];
        }
      }
      assert feed[..|feed|] == feed;
      var entries := Sorted(recent);
      var saved, failed, handed := HandOn(entries, run.stopsAfter, saves);
      passed := passed + handed;
      if run.stopsAfter.Some? {
        return None;
      }
      MoveWatermark(recent, feed);
      r := Some(SyncResult(|feed|, |recent|, skipped, saved, failed));
    }

    /** Hand the rated entries on, until the run is cut off. */
    static method HandOn(entries: seq<Entry>, stopsAfter: Option<nat>, saves: nat -> bool)
      returns (saved: nat, failed: nat, ghost handed: seq<Entry>)
      ensures var all := Rated(entries);
              handed == if stopsAfter.None? || |all| < stopsAfter.value then all else all[..stopsAfter.value]
      ensures saved + failed == |handed| && saved == |set i: nat | i < |handed| && saves(i)|
    {
      saved, failed, handed := 0, 0, [];
      for i := 0 to |entries|
        invariant handed == Rated(entries[..i]) && saved + failed == |handed|
        invariant stopsAfter.Some? ==> |handed| <= stopsAfter.value
        invariant saved == |set k: nat | k < |handed| && saves(k)|
      {
        assert entries[..i + 1][..i] == entries[..i];
        if entries[i].rating.Some? {
          if stopsAfter == Some(saved + failed) {
            RatedPrefix(entries, i);
            return;
          }
          OneMoreSave(saves, |handed|);
          if saves(saved + failed) {
            saved := saved + 1;
          } else {
            failed := failed + 1;
          }
          handed := handed + [entries[i]];
        }
      }
      assert entries[..|entries|] == entries;
    }

    static lemma OneMoreSave(saves: nat -> bool, n: nat)
      ensures |set k: nat | k < n + 1 && saves(k)| == |set k: nat | k < n && saves(k)| + if saves(n) then 1 else 0
    {
      assert (set k: nat | k < n + 1 && saves(k)) == (set k: nat | k < n && saves(k)) + if saves(n) then {n} else {};
    }

    /** Write the latest new date, if there is one. */
    method MoveWatermark(recent: seq<Entry>, ghost feed: seq<Entry>)
      requires recent == NewEntries(watermark, feed)
      modifies this`watermark
      ensures watermark == MarkAfter(old(watermark), feed)
    {
      if recent != [] {
        var latest := Latest(recent);
        NewEntriesAreNew(watermark, feed);
        assert forall i :: 0 <= i < |recent| ==> recent[i] in recent;
        NewestIsMoved(watermark, recent, latest);
        watermark := Some(latest);
      }
    }

    /** The latest date of some entries. */
    static method Latest(es: seq<Entry>) returns (latest: string)
      requires es != []
      ensures exists i :: 0 <= i < |es| && es[i].iso == latest
      ensures forall i :: 0 <= i < |es| ==> Leq(es[i].iso, latest)
    {
      latest := es[0].iso;
      LeqIsTotalOrder(latest, latest, latest);
      for i := 1 to |es|
        invariant exists k :: 0 <= k < |es| && es[k].iso == latest
        invariant forall k :: 0 <= k < i ==> Leq(es[k].iso, latest)
      {
        var before := latest;
        LeqIsTotalOrder(before, es[i].iso, before);
        if !Leq(es[i].iso, latest) {
          latest := es[i].iso;
        }
        forall k | 0 <= k < i + 1
          ensures Leq(es[k].iso, latest)
        {
          LeqIsTotalOrder(es[k].iso, before, latest);
          LeqIsTotalOrder(es[k].iso, es[k].iso, latest);
        }
      }
    }
  }

  lemma {:induction false} RatedPrefix(es: seq<Entry>, i: nat)
    requires i <= |es|
    ensures Rated(es[..i]) <= Rated(es)
  {
    if i < |es| {
      RatedPrefix(es[..|es| - 1], i);
      assert es[..|es| - 1][..i] == es[..i];
    } else {
      assert es[..i] == es;
    }
  }

  /** The latest new date is what the watermark moves to. */
  lemma NewestIsMoved(mark: Option<string>, es: seq<Entry>, latest: string)
    requires es != [] && forall i :: 0 <= i < |es| ==> IsNew(mark, es[i])
    requires exists i :: 0 <= i < |es| && es[i].iso == latest
    requires forall i :: 0 <= i < |es| ==> Leq(es[i].iso, latest)
    ensures Moved(mark, es) == Some(latest)
  {
    MovedIsLatest(mark, es);
    var m := Moved(mark, es).value;
    var i :| 0 <= i < |es| && es[i].iso == latest;
    assert IsNew(mark, es[i]) && Leq(latest, m);
    if mark == Some(m) {
      LeqIsTotalOrder(latest, m, latest);
    }
    LeqIsTotalOrder(latest, m, latest);
  }

  lemma {:induction false} MovedIsLatest(mark: Option<string>, es: seq<Entry>)
    ensures Moved(mark, es).None? <==> mark.None? && es == []
    ensures Moved(mark, es).Some? ==>
              var m := Moved(mark, es).value;
              && (mark == Some(m) || exists i :: 0 <= i < |es| && es[i].iso == m)
              && (mark.Some? ==> Leq(mark.value, m))
              && forall i :: 0 <= i < |es| ==> Leq(es[i].iso, m)
  {
    if es != [] {
      var front, last := es[..|es| - 1], es[|es| - 1].iso;
      MovedIsLatest(mark, front);
      var before, m := Moved(mark, front), Moved(mark, es).value;
      assert es[|es| - 1].iso == last;
      LeqIsTotalOrder(last, m, last);
      if before.Some? {
        LeqIsTotalOrder(last, before.value, last);
        LeqIsTotalOrder(before.value, m, m);
        if mark.Some? {
          LeqIsTotalOrder(mark.value, before.value, m);
        }
      }
      forall i | 0 <= i < |es|
        ensures Leq(es[i].iso, m)
      {
        if i < |front| {
          assert front[i] == es[i];
          LeqIsTotalOrder(es[i].iso, before.value, m);
        }
      }
      if before == Some(m) && mark != Some(m) {
        var i :| 0 <= i < |front| && front[i].iso == m;
        assert es[i].iso == m;
      }
    } else {
      if mark.Some? { LeqIsTotalOrder(mark.value, mark.value, mark.value); }
    }
  }

  lemma {:induction false} NewEntriesAreNew(mark: Option<string>, feed: seq<Entry>)
    ensures forall e :: e in NewEntries(mark, feed) <==> e in feed && IsNew(mark, e)
  {
    if feed != [] {
      NewEntriesAreNew(mark, feed[..|feed| - 1]);
      assert feed == feed[..|feed| - 1] + [feed[|feed| - 1]];
    }
  }

  // ---- Sorting loses nothing and puts the oldest first.

  ghost predicate Ordered(es: seq<Entry>) {
    forall i, j :: 0 <= i < j < |es| ==> Leq(es[i].iso, es[j].iso)
  }

  lemma {:induction false} InsertedPermutes(sorted: seq<Entry>, e: Entry)
    ensures multiset(Inserted(sorted, e)) == multiset(sorted) + multiset{e}
  {
    if sorted != [] && !Leq(sorted[|sorted| - 1].iso, e.iso) {
      InsertedPermutes(sorted[..|sorted| - 1], e);
      assert sorted == sorted[..|sorted| - 1] + [sorted[|sorted| - 1]];
    }
  }

  lemma {:induction false} InsertedMembers(sorted: seq<Entry>, e: Entry)
    ensures forall x :: x in Inserted(sorted, e) ==> x == e || x in sorted
  {
    if sorted != [] && !Leq(sorted[|sorted| - 1].iso, e.iso) {
      InsertedMembers(sorted[..|sorted| - 1], e);
    }
  }

  lemma OrderedSnoc(es: seq<Entry>, last: Entry)
    requires Ordered(es) && forall x :: x in es ==> Leq(x.iso, last.iso)
    ensures Ordered(es + [last])
  {
  }

  lemma {:induction false} InsertedIsOrdered(sorted: seq<Entry>, e: Entry)
    requires Ordered(sorted)
    ensures Ordered(Inserted(sorted, e))
  {
    if sorted != [] {
      var front, last := sorted[..|sorted| - 1], sorted[|sorted| - 1];
      forall x | x in sorted
        ensures Leq(x.iso, last.iso)
      {
        var k :| 0 <= k < |sorted| && sorted[k] == x;
        LeqIsTotalOrder(last.iso, last.iso, last.iso);
        assert k == |sorted| - 1 || Leq(sorted[k].iso, sorted[|sorted| - 1].iso);
      }
      if Leq(last.iso, e.iso) {
        forall x | x in sorted
          ensures Leq(x.iso, e.iso)
        {
          LeqIsTotalOrder(x.iso, last.iso, e.iso);
        }
        OrderedSnoc(sorted, e);
      } else {
        LeqIsTotalOrder(e.iso, last.iso, e.iso);
        InsertedIsOrdered(front, e);
        InsertedMembers(front, e);
        OrderedSnoc(Inserted(front, e), last);
      }
    }
  }

  lemma {:induction false} SortedIsOrdered(es: seq<Entry>)
    ensures Ordered(Sorted(es)) && multiset(Sorted(es)) == multiset(es)
  {
    if es != [] {
      SortedIsOrdered(es[..|es| - 1]);
      InsertedIsOrdered(Sorted(es[..|es| - 1]), es[|es| - 1]);
      InsertedPermutes(Sorted(es[..|es| - 1]), es[|es| - 1]);
      hide Inserted, Ordered;
      assert es == es[..|es| - 1] + [es[|es| - 1]];
    }
  }

  lemma {:induction false} RatedAreRated(es: seq<Entry>)
    ensures forall e :: e in Rated(es) <==> e in es && e.rating.Some?
    ensures Ordered(es) ==> Ordered(Rated(es))
  {
    if es != [] {
      var front, last := es[..|es| - 1], es[|es| - 1];
      RatedAreRated(front);
      assert es == front + [last];
      if Ordered(es) {
        var r := Rated(front);
        forall i | 0 <= i < |r|
          ensures Leq(r[i].iso, last.iso)
        {
          assert r[i] in r && r[i] in front;
          var k :| 0 <= k < |front| && front[k] == r[i];
          assert es[k] == r[i] && Leq(es[k].iso, es[|es| - 1].iso);
        }
      }
    }
  }

  /** The entries of one date, in order. */
  function OnDate(es: seq<Entry>, iso: string): seq<Entry> {
    if es == [] then []
    else OnDate(es[..|es| - 1], iso) + if es[|es| - 1].iso == iso then [es[|es| - 1]] else []
  }

  lemma OnDateSnoc(es: seq<Entry>, e: Entry, iso: string)
    ensures OnDate(es + [e], iso) == OnDate(es, iso) + if e.iso == iso then [e] else []
  {
    assert (es + [e])[..|es|] == es;
  }

  lemma {:induction false} InsertedIsStable(sorted: seq<Entry>, e: Entry, iso: string)
    ensures OnDate(Inserted(sorted, e), iso) == OnDate(sorted, iso) + if e.iso == iso then [e] else []
  {
    if sorted == [] || Leq(sorted[|sorted| - 1].iso, e.iso) {
      OnDateSnoc(sorted, e, iso);
    } else {
      var front, last := sorted[..|sorted| - 1], sorted[|sorted| - 1];
      LeqIsTotalOrder(last.iso, e.iso, last.iso);
      InsertedIsStable(front, e, iso);
      OnDateSnoc(Inserted(front, e), last, iso);
      assert sorted == front + [last];
      OnDateSnoc(front, last, iso);
    }
  }

  /** Sorting leaves the entries of one date in their order. */
  lemma {:induction false} SortedIsStable(es: seq<Entry>, iso: string)
    ensures OnDate(Sorted(es), iso) == OnDate(es, iso)
  {
    if es != [] {
      SortedIsStable(es[..|es| - 1], iso);
      InsertedIsStable(Sorted(es[..|es| - 1]), es[|es| - 1], iso);
    }
  }

  /** Unrated entries are left out, in order. */
  lemma {:induction false} RatedExactly(a: seq<Entry>, b: seq<Entry>, e: Entry)
    ensures Rated(a + b) == Rated(a) + Rated(b) && Rated([e]) == if e.rating.Some? then [e] else []
  {
    assert [e][..0] == [];
    if b == [] {
      assert a + b == a;
    } else {
      assert (a + b)[..|a + b| - 1] == a + b[..|b| - 1];
      RatedExactly(a, b[..|b| - 1], e);
    }
  }

  lemma {:induction false} RatedOnDate(es: seq<Entry>, iso: string)
    ensures OnDate(Rated(es), iso) == Rated(OnDate(es, iso))
  {
    if es != [] {
      var front, last := es[..|es| - 1], es[|es| - 1];
      RatedOnDate(front, iso);
      OnDateSnoc(Rated(front), last, iso);
      assert (OnDate(front, iso) + [last])[..|OnDate(front, iso)|] == OnDate(front, iso);
      if last.rating.None? {
        assert Rated(es) == Rated(front);
      }
      if last.iso != iso {
        assert OnDate(es, iso) == OnDate(front, iso);
      }
    }
  }

  lemma {:induction false} NewOnDate(mark: Option<string>, feed: seq<Entry>, iso: string)
    ensures OnDate(NewEntries(mark, feed), iso)
         == if iso != "" && !(mark.Some? && Leq(iso, mark.value)) then OnDate(feed, iso) else []
  {
    if feed != [] {
      var front, last := feed[..|feed| - 1], feed[|feed| - 1];
      NewOnDate(mark, front, iso);
      OnDateSnoc(NewEntries(mark, front), last, iso);
      if !IsNew(mark, last) {
        assert NewEntries(mark, feed) == NewEntries(mark, front);
      }
      if last.iso != iso {
        assert OnDate(feed, iso) == OnDate(front, iso);
      }
    }
  }

  /** A run hands on exactly the rated entries of the feed dated after the watermark, oldest first, and those
      of one date as often and in the order the feed has them. */
  lemma PassedExactly(mark: Option<string>, feed: seq<Entry>)
    ensures forall e :: e in Passed(mark, feed) <==> e in feed && IsNew(mark, e) && e.rating.Some?
    ensures Ordered(Passed(mark, feed))
    ensures forall iso :: OnDate(Passed(mark, feed), iso)
                       == if iso != "" && !(mark.Some? && Leq(iso, mark.value)) then Rated(OnDate(feed, iso)) else []
  {
    var es := NewEntries(mark, feed);
    NewEntriesAreNew(mark, feed);
    SortedIsOrdered(es);
    RatedAreRated(Sorted(es));
    forall e
      ensures e in Sorted(es) <==> e in es
    {
      assert e in Sorted(es) <==> e in multiset(Sorted(es));
      assert e in es <==> e in multiset(es);
    }
    forall iso
      ensures OnDate(Passed(mark, feed), iso)
           == if iso != "" && !(mark.Some? && Leq(iso, mark.value)) then Rated(OnDate(feed, iso)) else []
    {
      SortedIsStable(es, iso);
      RatedOnDate(Sorted(es), iso);
      NewOnDate(mark, feed, iso);
    }
  }

  // ---- Any number of runs.

  function MarkOf(runs: seq<Run>): Option<string> {
    if runs == [] then None else MarkAfterRun(MarkOf(runs[..|runs| - 1]), runs[|runs| - 1])
  }

  /** What the j-th run should hand on. */
  function Due(runs: seq<Run>, j: nat): seq<Entry>
    requires j < |runs|
  {
    Passed(MarkOf(runs[..j]), runs[j].feed)
  }

  /** An entry that some of the completed runs showed, with a date. */
  ghost predicate Shown(runs: seq<Run>, e: Entry) {
    e.iso != "" && exists j :: 0 <= j < |runs| && Completes(runs[j]) && e in runs[j].feed
  }

  lemma ShownEarlier(runs: seq<Run>, e: Entry)
    requires runs != []
    ensures var last := runs[|runs| - 1];
            Shown(runs, e) <==> Shown(runs[..|runs| - 1], e) || (e.iso != "" && Completes(last) && e in last.feed)
  {
    var front := runs[..|runs| - 1];
    if Shown(front, e) {
      var j :| 0 <= j < |front| && Completes(front[j]) && e in front[j].feed;
      assert Completes(runs[j]) && e in runs[j].feed;
    }
  }

  /** The watermark is the latest date any completed run showed. */
  lemma {:induction false} WatermarkIsLatest(runs: seq<Run>)
    ensures forall e :: Shown(runs, e) ==> MarkOf(runs).Some? && Leq(e.iso, MarkOf(runs).value)
    ensures MarkOf(runs).Some? ==> exists e :: Shown(runs, e) && e.iso == MarkOf(runs).value
  {
    if runs != [] {
      WatermarkIsLatest(runs[..|runs| - 1]);
      forall e
        ensures Shown(runs, e) <==> Shown(runs[..|runs| - 1], e)
                                    || (e.iso != "" && Completes(runs[|runs| - 1]) && e in runs[|runs| - 1].feed)
      {
        ShownEarlier(runs, e);
      }
      if Completes(runs[|runs| - 1]) {
        OneMoreRun(runs);
      }
    }
  }

  lemma OneMoreRun(runs: seq<Run>)
    requires runs != [] && Completes(runs[|runs| - 1])
    requires var front := runs[..|runs| - 1];
             && (forall e :: Shown(front, e) ==> MarkOf(front).Some? && Leq(e.iso, MarkOf(front).value))
             && (MarkOf(front).Some? ==> exists e :: Shown(front, e) && e.iso == MarkOf(front).value)
    ensures forall e :: Shown(runs, e) ==> MarkOf(runs).Some? && Leq(e.iso, MarkOf(runs).value)
    ensures MarkOf(runs).Some? ==> exists e :: Shown(runs, e) && e.iso == MarkOf(runs).value
  {
    var front, feed := runs[..|runs| - 1], runs[|runs| - 1].feed;
    var mark, es := MarkOf(front), NewEntries(MarkOf(front), feed);
    NewEntriesAreNew(mark, feed);
    MovedIsLatest(mark, es);
    forall e | Shown(runs, e)
      ensures MarkOf(runs).Some? && Leq(e.iso, MarkOf(runs).value)
    {
      ShownEarlier(runs, e);
      DatedIsCovered(mark, es, e, feed, Shown(front, e));
    }
    if MarkOf(runs).Some? {
      var m := MarkOf(runs).value;
      if mark == Some(m) {
        var e :| Shown(front, e) && e.iso == m;
        ShownEarlier(runs, e);
        assert Shown(runs, e);
      } else {
        var i :| 0 <= i < |es| && es[i].iso == m;
        assert es[i] in es && es[i] in feed;
        ShownEarlier(runs, es[i]);
        assert Shown(runs, es[i]);
      }
    }
  }

  lemma DatedIsCovered(mark: Option<string>, es: seq<Entry>, e: Entry, feed: seq<Entry>, before: bool)
    requires es == NewEntries(mark, feed) && e.iso != ""
    requires before ==> mark.Some? && Leq(e.iso, mark.value)
    requires before || e in feed
    ensures Moved(mark, es).Some? && Leq(e.iso, Moved(mark, es).value)
  {
    NewEntriesAreNew(mark, feed);
    MovedIsLatest(mark, es);
    if IsNew(mark, e) && e in feed {
      var i :| 0 <= i < |es| && es[i] == e;
    } else {
      LeqIsTotalOrder(e.iso, mark.value, Moved(mark, es).value);
    }
  }

  /** Over any sequence of runs, cut off or not: an entry is due in a run exactly when its feed shows it, it
      is rated, and it is dated strictly after everything the earlier completed runs showed. */
  lemma PassedWhenNewest(runs: seq<Run>, j: nat, e: Entry)
    requires j < |runs|
    ensures e in Due(runs, j)
       <==> && e in runs[j].feed && e.rating.Some? && e.iso != ""
            && forall x :: Shown(runs[..j], x) ==> Less(x.iso, e.iso)
  {
    var mark := MarkOf(runs[..j]);
    PassedExactly(mark, runs[j].feed);
    WatermarkIsLatest(runs[..j]);
    if e.iso != "" {
      if IsNew(mark, e) {
        forall x | Shown(runs[..j], x)
          ensures Less(x.iso, e.iso)
        {
          LeqIsTotalOrder(x.iso, mark.value, e.iso);
          LeqIsTotalOrder(e.iso, mark.value, e.iso);
        }
      } else {
        var x :| Shown(runs[..j], x) && x.iso == mark.value;
        LeqIsTotalOrder(e.iso, x.iso, e.iso);
      }
    }
  }

  /** A run between i and j that completed and showed something dated as late as `e`. */
  ghost predicate Overtaken(runs: seq<Run>, i: nat, j: nat, e: Entry) {
    exists k, x ::
      i <= k < j && k < |runs| && Completes(runs[k]) && x in runs[k].feed && x.iso != "" && !Less(x.iso, e.iso)
  }

  /** The exact condition: what one run handed on is due again in a later one if and only if that one's feed
      still shows it and no run since, the first included, completed having shown something as late. */
  lemma HandedOnAgainExactly(runs: seq<Run>, i: nat, j: nat, e: Entry)
    requires i < j < |runs| && e in HandedOn(MarkOf(runs[..i]), runs[i])
    ensures e in Due(runs, j) <==> e in runs[j].feed && !Overtaken(runs, i, j, e)
  {
    PassedWhenNewest(runs, i, e);
    PassedWhenNewest(runs, j, e);
    forall x: Entry
      ensures Shown(runs[..j], x) <==> Shown(runs[..i], x) || ShownBetween(runs, i, j, x)
    {
      ShownInParts(runs, i, j, x);
    }
    hide MarkOf, Passed;
    if Overtaken(runs, i, j, e) {
      var k, x :| i <= k < j && k < |runs| && Completes(runs[k]) && x in runs[k].feed && x.iso != ""
                  && !Less(x.iso, e.iso);
      assert ShownBetween(runs, i, j, x);
    }
  }

  ghost predicate ShownBetween(runs: seq<Run>, i: nat, j: nat, x: Entry) {
    x.iso != "" && exists k :: i <= k < j && k < |runs| && Completes(runs[k]) && x in runs[k].feed
  }

  lemma ShownInParts(runs: seq<Run>, i: nat, j: nat, x: Entry)
    requires i <= j <= |runs|
    ensures Shown(runs[..j], x) <==> Shown(runs[..i], x) || ShownBetween(runs, i, j, x)
  {
    assert forall k :: 0 <= k < j ==> runs[..j][k] == runs[k];
    assert forall k :: 0 <= k < i ==> runs[..i][k] == runs[k];
  }

  /** No entry handed on by a completed run is handed on by a later one. */
  lemma NoEntryTwice(runs: seq<Run>, i: nat, j: nat, e: Entry)
    requires i < j < |runs| && Completes(runs[i]) && e in HandedOn(MarkOf(runs[..i]), runs[i])
    ensures e !in HandedOn(MarkOf(runs[..j]), runs[j])
  {
    HandedOnAgainExactly(runs, i, j, e);
    PassedWhenNewest(runs, i, e);
    assert Completes(runs[i]) && e in runs[i].feed && !Less(e.iso, e.iso);
    hide MarkOf, Passed;
    assert Overtaken(runs, i, j, e);
  }

  /** After a completed run, a run on the same feed hands on nothing. */
  lemma RepeatedFeedPassesNothing(runs: seq<Run>, i: nat, j: nat)
    requires i < j < |runs| && Completes(runs[i]) && runs[i].feed == runs[j].feed
    ensures HandedOn(MarkOf(runs[..j]), runs[j]) == []
  {
    var due := Due(runs, j);
    assert due == [] || due[0] in due;
    hide MarkOf, Passed;
    forall e
      ensures e !in due
    {
      PassedWhenNewest(runs, j, e);
      if e in runs[j].feed && e.iso != "" {
        assert runs[..j][i] == runs[i];
        assert Shown(runs[..j], e);
      }
    }
  }

  /** After a run that was cut off, the next run on the same feed has everything to hand on again. */
  lemma StoppedRunIsRepeated(runs: seq<Run>, i: nat)
    requires i + 1 < |runs| && !Completes(runs[i]) && runs[i].feed == runs[i + 1].feed
    ensures Due(runs, i + 1) == Due(runs, i)
    ensures HandedOn(MarkOf(runs[..i]), runs[i]) <= Due(runs, i + 1)
  {
    assert runs[..i + 1][..i] == runs[..i];
  }

  /** An entry added later under a date a completed run has shown is never handed on, however often it is
      shown. */
  lemma LateEntryIsLost(runs: seq<Run>, i: nat, j: nat, seen: Entry, late: Entry)
    requires i < j < |runs| && Completes(runs[i])
    requires seen in runs[i].feed && seen.iso != "" && Leq(late.iso, seen.iso)
    ensures late !in HandedOn(MarkOf(runs[..j]), runs[j])
  {
    PassedWhenNewest(runs, j, late);
    assert runs[..j][i] == runs[i];
    assert Shown(runs[..j], seen);
    LeqIsTotalOrder(late.iso, seen.iso, late.iso);
  }
}
