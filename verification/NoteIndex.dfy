/** The secondary indexes over film notes: one sorted set, one stats entry and one name-set entry per
    film and per watcher.  `Agrees` says that an index tells exactly what the base table says. */
module NoteIndex {
  import opened SortedSets

  /** A stored note; `at` is its time stamp in microseconds. */
  datatype Note = Note(film: string, watcher: string, rating: real, at: nat, reaction: string, themes: string)

  type Notes = map<Member, Note>

  datatype Side = FilmSide | WatcherSide

  function NameOf(n: Note, side: Side): string {
    if side.FilmSide? then n.film else n.watcher
  }

  /** `int(now.timestamp())`: the sorted-set score of a note. */
  function Seconds(at: nat): (s: nat)
    ensures s * 1_000_000 <= at < (s + 1) * 1_000_000
  {
    at / 1_000_000
  }

  datatype Stat = Stat(count: int, sum: real)

  datatype Index = Index(zsets: map<string, ZSet>, stats: map<string, Stat>, names: set<string>)

  // ---- Redis commands on one index.  A key without members does not exist.

  function ZGet(zsets: map<string, ZSet>, name: string): ZSet {
    if name in zsets then zsets[name] else map[]
  }

  function ZAdd(zsets: map<string, ZSet>, name: string, id: Member, score: int): map<string, ZSet> {
    zsets[name := ZGet(zsets, name)[id := score]]
  }

  function ZRem(zsets: map<string, ZSet>, name: string, id: Member): map<string, ZSet> {
    var z := ZGet(zsets, name) - {id};
    if z == map[] then zsets - {name} else zsets[name := z]
  }

  function StatGet(stats: map<string, Stat>, name: string): Stat {
    if name in stats then stats[name] else Stat(0, 0.0)
  }

  function HIncr(stats: map<string, Stat>, name: string, count: int, sum: real): map<string, Stat> {
    var s := StatGet(stats, name);
    stats[name := Stat(s.count + count, s.sum + sum)]
  }

  // ---- What a save and a delete do to one index.

  function Added(ix: Index, name: string, id: Member, n: Note): Index {
    Index(ZAdd(ix.zsets, name, id, Seconds(n.at)), HIncr(ix.stats, name, 1, n.rating), ix.names + {name})
  }

  function Withdrawn(ix: Index, name: string, id: Member, rating: real): Index {
    Index(ZRem(ix.zsets, name, id), HIncr(ix.stats, name, -1, -rating), ix.names)
  }

  /** Drop the stats, the sorted set and the name once nothing is counted under it. */
  function Pruned(ix: Index, name: string): Index {
    if StatGet(ix.stats, name).count > 0 then ix
    else if ZGet(ix.zsets, name) != map[] then ix.(stats := ix.stats - {name})
    else Index(ix.zsets - {name}, ix.stats - {name}, ix.names - {name})
  }

  /** A whole delete, seen by one index. */
  function Removed(ix: Index, side: Side, id: Member, n: Note): Index {
    Pruned(Withdrawn(ix, NameOf(n, side), id, n.rating), NameOf(n, side))
  }

  // ---- Agreement with the base table.

  function Under(notes: Notes, side: Side, name: string): Notes {
    map id | id in notes && NameOf(notes[id], side) == name :: notes[id]
  }

  function Scores(notes: Notes): ZSet {
    map id | id in notes :: Seconds(notes[id].at)
  }

  ghost function Total(notes: Notes): real
    decreases |notes|
  {
    if notes == map[] then 0.0
    else
      var id :| id in notes;
      notes[id].rating + Total(notes - {id})
  }

  lemma {:induction false} TotalWithout(notes: Notes, id: Member)
    requires id in notes
    ensures Total(notes) == notes[id].rating + Total(notes - {id})
    decreases |notes|
  {
    var first :| first in notes && Total(notes) == notes[first].rating + Total(notes - {first});
    if first != id {
      TotalWithout(notes - {first}, id);
      TotalWithout(notes - {id}, first);
      assert notes - {first} - {id} == notes - {id} - {first};
    }
  }

  ghost predicate AgreesAt(ix: Index, notes: Notes, side: Side, name: string) {
    var m := Under(notes, side, name);
    && ZGet(ix.zsets, name) == Scores(m)
    && StatGet(ix.stats, name) == Stat(|m|, Total(m))
    && (name in ix.zsets <==> m != map[])
    && (name in ix.stats <==> m != map[])
    && (name in ix.names <==> m != map[])
  }

  ghost predicate Agrees(ix: Index, notes: Notes, side: Side) {
    forall name :: AgreesAt(ix, notes, side, name)
  }

  const EMPTY_INDEX := Index(map[], map[], {})

  lemma EmptyAgrees(side: Side)
    ensures Agrees(EMPTY_INDEX, map[], side)
  {
    forall name
      ensures AgreesAt(EMPTY_INDEX, map[], side, name)
    {
      assert Under(map[], side, name) == map[];
    }
  }

  /** A base table has only one agreeing index. */
  lemma AgreementIsExact(a: Index, b: Index, notes: Notes, side: Side)
    requires Agrees(a, notes, side) && Agrees(b, notes, side)
    ensures a == b
  {
    forall name
      ensures name in a.zsets <==> name in b.zsets
      ensures name in a.stats <==> name in b.stats
      ensures name in a.names <==> name in b.names
      ensures name in a.zsets ==> a.zsets[name] == b.zsets[name]
      ensures name in a.stats ==> a.stats[name] == b.stats[name]
    {
      assert AgreesAt(a, notes, side, name) && AgreesAt(b, notes, side, name);
    }
    assert a.zsets == b.zsets && a.stats == b.stats && a.names == b.names;
  }

  lemma UnderAdd(notes: Notes, side: Side, name: string, id: Member, n: Note)
    requires id !in notes
    ensures Under(notes[id := n], side, name)
         == if NameOf(n, side) == name then Under(notes, side, name)[id := n] else Under(notes, side, name)
  {
  }

  lemma UnderRemove(notes: Notes, side: Side, name: string, id: Member)
    requires id in notes
    ensures Under(notes - {id}, side, name)
         == if NameOf(notes[id], side) == name then Under(notes, side, name) - {id} else Under(notes, side, name)
  {
  }

  lemma CountAndTotalAfterAdd(m: Notes, id: Member, n: Note)
    requires id !in m
    ensures |m[id := n]| == |m| + 1 && Total(m[id := n]) == Total(m) + n.rating
    ensures Scores(m[id := n]) == Scores(m)[id := Seconds(n.at)]
  {
    TotalWithout(m[id := n], id);
    assert m[id := n] - {id} == m;
  }

  lemma CountAndTotalAfterRemove(m: Notes, id: Member)
    requires id in m
    ensures |m - {id}| == |m| - 1 && Total(m - {id}) == Total(m) - m[id].rating
    ensures Scores(m - {id}) == Scores(m) - {id}
    ensures Scores(m - {id}) == map[] <==> m - {id} == map[]
  {
    TotalWithout(m, id);
    assert (m - {id}).Keys == m.Keys - {id};
    assert Scores(m - {id}).Keys == (m - {id}).Keys;
  }

  lemma AddAgreesAt(ix: Index, notes: Notes, side: Side, id: Member, n: Note)
    requires AgreesAt(ix, notes, side, NameOf(n, side)) && id !in notes
    ensures AgreesAt(Added(ix, NameOf(n, side), id, n), notes[id := n], side, NameOf(n, side))
  {
    var name := NameOf(n, side);
    UnderAdd(notes, side, name, id, n);
    CountAndTotalAfterAdd(Under(notes, side, name), id, n);
  }

  /** Saving a note keeps an index in agreement. */
  lemma AddAgrees(ix: Index, notes: Notes, side: Side, id: Member, n: Note, notes': Notes)
    requires Agrees(ix, notes, side) && id !in notes && notes' == notes[id := n]
    ensures Agrees(Added(ix, NameOf(n, side), id, n), notes', side)
  {
    forall name: string
      ensures AgreesAt(Added(ix, NameOf(n, side), id, n), notes', side, name)
    {
      assert AgreesAt(ix, notes, side, name);
      if name == NameOf(n, side) {
        AddAgreesAt(ix, notes, side, id, n);
      } else {
        UnderAdd(notes, side, name, id, n);
      }
    }
  }

  lemma RemoveAgreesAt(ix: Index, notes: Notes, side: Side, id: Member)
    requires id in notes && AgreesAt(ix, notes, side, NameOf(notes[id], side))
    ensures var name := NameOf(notes[id], side);
            AgreesAt(Removed(ix, side, id, notes[id]), notes - {id}, side, name)
  {
    var name := NameOf(notes[id], side);
    UnderRemove(notes, side, name, id);
    CountAndTotalAfterRemove(Under(notes, side, name), id);
  }

  lemma OtherNameUntouched(ix: Index, own: string, name: string, id: Member, rating: real)
    requires name != own
    ensures var ix' := Pruned(Withdrawn(ix, own, id, rating), own);
            && ZGet(ix'.zsets, name) == ZGet(ix.zsets, name) && StatGet(ix'.stats, name) == StatGet(ix.stats, name)
            && (name in ix'.zsets <==> name in ix.zsets)
            && (name in ix'.stats <==> name in ix.stats)
            && (name in ix'.names <==> name in ix.names)
  {
  }

  lemma RemoveAgreesUnder(ix: Index, notes: Notes, side: Side, id: Member, name: string)
    requires Agrees(ix, notes, side) && id in notes
    ensures AgreesAt(Removed(ix, side, id, notes[id]), notes - {id}, side, name)
  {
    assert AgreesAt(ix, notes, side, name);
    if name == NameOf(notes[id], side) {
      RemoveAgreesAt(ix, notes, side, id);
    } else {
      UnderRemove(notes, side, name, id);
      OtherNameUntouched(ix, NameOf(notes[id], side), name, id, notes[id].rating);
    }
  }

  /** Deleting a note, with the clean-up that follows, keeps an index in agreement. */
  lemma RemoveAgrees(ix: Index, notes: Notes, side: Side, id: Member, notes': Notes)
    requires Agrees(ix, notes, side) && id in notes && notes' == notes - {id}
    ensures Agrees(Removed(ix, side, id, notes[id]), notes', side)
  {
    forall name: string
      ensures AgreesAt(Removed(ix, side, id, notes[id]), notes', side, name)
    {
      RemoveAgreesUnder(ix, notes, side, id, name);
    }
  }
}
