/** Expiry: rows are buried in the index before any of their files is deleted. */
module ArtifactExpiry {
  import opened Prelude
  import opened ArtifactIndex
  import opened ArtifactStore

  datatype Report = Report(requested: nat, matched: nat, tombstoned: nat, deletedFiles: nat, missingFiles: nat)

  /** The targets that are still live. */
  function FreshIds(rows: seq<Row>, ids: set<string>): set<string> {
    set i | 0 <= i < |rows| && rows[i].id in ids && rows[i].tombstone.None? :: rows[i].id
  }

  predicate IsFresh(r: Row, ids: set<string>) { r.id in ids && r.tombstone.None? }

  lemma FreshIdsNext(rows: seq<Row>, ids: set<string>, n: nat)
    requires n < |rows| && UniqueIds(rows)
    ensures FreshIds(rows[..n + 1], ids) ==
            FreshIds(rows[..n], ids) + if IsFresh(rows[n], ids) then {rows[n].id} else {}
    ensures rows[n].id !in FreshIds(rows[..n], ids)
  {
    var a, b := rows[..n], rows[..n + 1];
    assert forall i | 0 <= i < n :: a[i] == rows[i] && b[i] == rows[i] && rows[i].id != rows[n].id;
    assert b[n] == rows[n];
    forall id | id in FreshIds(a, ids)
      ensures id in FreshIds(b, ids)
    {
      var i :| 0 <= i < n && a[i].id in ids && a[i].tombstone.None? && a[i].id == id;
      assert b[i].id == id;
    }
  }

  /** Whose files go, in row order: targets whose recorded path passes validation. */
  function Doomed(rows: seq<Row>, ids: set<string>, deletable: Row -> bool): seq<string> {
    var n := |rows| - 1;
    if rows == [] then []
    else Doomed(rows[..n], ids, deletable) + if rows[n].id in ids && deletable(rows[n]) then [rows[n].id] else []
  }

  predicate Distinct(names: seq<string>) {
    forall i, j | 0 <= i < j < |names| :: names[i] != names[j]
  }

  /** Some row is a target with a deletable file and has this id. */
  ghost predicate MustGo(rows: seq<Row>, ids: set<string>, deletable: Row -> bool, id: string) {
    exists r :: r in rows && r.id == id && id in ids && deletable(r)
  }

  ghost function MustGoIds(rows: seq<Row>, ids: set<string>, deletable: Row -> bool): set<string> {
    set id | id in ids && MustGo(rows, ids, deletable, id)
  }

  lemma MustGoNext(rows: seq<Row>, ids: set<string>, deletable: Row -> bool, id: string)
    requires rows != []
    ensures var n := |rows| - 1;
            MustGo(rows, ids, deletable, id) <==>
            MustGo(rows[..n], ids, deletable, id) || (rows[n].id == id && id in ids && deletable(rows[n]))
  {
    var n := |rows| - 1;
    assert rows == rows[..n] + [rows[n]];
    assert rows[n] in rows;
    assert forall r | r in rows[..n] :: r in rows;
    if MustGo(rows, ids, deletable, id) {
      var r :| r in rows && r.id == id && id in ids && deletable(r);
      assert r in rows[..n] || r == rows[n];
    }
  }

  /** The collected ids are exactly those of the targets with deletable files, each once. */
  lemma {:induction false} DoomedIff(rows: seq<Row>, ids: set<string>, deletable: Row -> bool)
    requires UniqueIds(rows)
    ensures Distinct(Doomed(rows, ids, deletable))
    ensures forall id :: id in Doomed(rows, ids, deletable) <==> MustGo(rows, ids, deletable, id)
  {
    hide MustGo;
    if rows == [] {
      NobodyMustGo(ids, deletable);
    } else {
      var n := |rows| - 1;
      DoomedIff(rows[..n], ids, deletable);
      forall id
        ensures id in Doomed(rows, ids, deletable) <==> MustGo(rows, ids, deletable, id)
      {
        MustGoNext(rows, ids, deletable, id);
      }
      LastIsNew(rows, ids, deletable);
    }
  }

  lemma NobodyMustGo(ids: set<string>, deletable: Row -> bool)
    ensures forall id :: !MustGo([], ids, deletable, id)
  {
  }

  lemma LastIsNew(rows: seq<Row>, ids: set<string>, deletable: Row -> bool)
    requires UniqueIds(rows) && rows != []
    ensures var n := |rows| - 1; !MustGo(rows[..n], ids, deletable, rows[n].id)
  {
  }

  lemma DoomedAreTargets(rows: seq<Row>, ids: set<string>, deletable: Row -> bool)
    requires UniqueIds(rows)
    ensures Distinct(Doomed(rows, ids, deletable))
    ensures forall id | id in Doomed(rows, ids, deletable) :: id in ids && exists r :: r in rows && r.id == id
  {
    DoomedIff(rows, ids, deletable);
  }

  /** As many ids are collected as there are such targets. */
  lemma DoomedCount(rows: seq<Row>, ids: set<string>, deletable: Row -> bool)
    requires UniqueIds(rows)
    ensures |Doomed(rows, ids, deletable)| == |MustGoIds(rows, ids, deletable)|
  {
    hide Doomed;
    DoomedIff(rows, ids, deletable);
    var names := Doomed(rows, ids, deletable);
    DistinctCount(names);
    assert (set id | id in names) == MustGoIds(rows, ids, deletable);
  }

  lemma {:induction false} DistinctCount(names: seq<string>)
    requires Distinct(names)
    ensures |set id | id in names| == |names|
  {
    if names == [] {
    } else {
      var n := |names| - 1;
      DistinctCount(names[..n]);
      assert names == names[..n] + [names[n]];
      assert names[n] !in names[..n];
      assert (set id | id in names) == (set id | id in names[..n]) + {names[n]};
    }
  }

  /** The loop inside the section: buries live targets, counts them, and collects whose files to delete. */
  method BuryTargets(rows: seq<Row>, ids: set<string>, stamp: Tombstone, deletable: Row -> bool)
    returns (after: seq<Row>, count: nat, doomed: seq<string>)
    requires UniqueIds(rows)
    ensures after == Buried(rows, ids, stamp)
    ensures count == |FreshIds(rows, ids)|
    ensures doomed == Doomed(rows, ids, deletable)
  {
    hide FreshIds;
    hide UniqueIds;
    after, count, doomed := [], 0, [];
    assert FreshIds([], ids) == {} by { NoneFresh(ids); }
    assert rows[..0] == [];
    for i := 0 to |rows|
      invariant after == Buried(rows, ids, stamp)[..i]
      invariant count == |FreshIds(rows[..i], ids)|
      invariant doomed == Doomed(rows[..i], ids, deletable)
    {
      var r := rows[i];
      FreshIdsNext(rows, ids, i);
      assert rows[..i + 1][..i] == rows[..i];
      assert Buried(rows, ids, stamp)[..i + 1] == Buried(rows, ids, stamp)[..i] + [Bury(r, ids, stamp)];
      if r.id in ids {
        if r.tombstone.None? {
          count := count + 1;
          r := r.(tombstone := Some(stamp));
        }
        if deletable(rows[i]) { doomed := doomed + [r.id]; }
      }
      after := after + [r];
    }
    assert rows[..|rows|] == rows;
  }

  lemma NoneFresh(ids: set<string>)
    ensures FreshIds([], ids) == {}
  {
  }

  /** A file goes only when the index already says its row is buried. */
  ghost predicate GoneSafely(was: Files, now: Files, scope: string, ids: set<string>, rows: seq<Row>) {
    && (forall k | k in now :: k in was && now[k] == was[k])
    && (forall k | k in was && k !in now ::
          k.scope == scope && k.id in ids && Look(rows, k.id).Some? && Look(rows, k.id).value.tombstone.Some?)
  }

  lemma ExpiredRow(rows: seq<Row>, ids: set<string>, stamp: Tombstone, id: string)
    requires UniqueIds(rows) && id in ids && id in Ids(rows)
    ensures var found := Look(After(rows, Expire(ids, stamp)), id); found.Some? && found.value.tombstone.Some?
  {
    hide Look;
    hide After;
    LookFinds(rows, id);
    SectionActs(rows, Expire(ids, stamp), id);
  }

  /** Expiring again changes nothing: the first tombstone stands. */
  lemma ExpireTwice(rows: seq<Row>, ids: set<string>, first: Tombstone, second: Tombstone)
    requires Sorted(rows) && UniqueIds(rows)
    ensures var once := After(rows, Expire(ids, first));
            After(once, Expire(ids, second)) == once
  {
    hide Look;
    hide After;
    hide Sorted;
    hide UniqueIds;
    var once := After(rows, Expire(ids, first));
    var twice := After(once, Expire(ids, second));
    SectionSorts(rows, Expire(ids, first));
    SectionIds(rows, Expire(ids, first));
    SectionSorts(once, Expire(ids, second));
    SectionIds(once, Expire(ids, second));
    forall id
      ensures Look(twice, id) == Look(once, id)
    {
      SectionActs(rows, Expire(ids, first), id);
      SectionActs(once, Expire(ids, second), id);
    }
    LooksDetermineIndex(twice, once);
  }

  function KeysOf(scope: string, names: seq<string>): set<Key> {
    set i | 0 <= i < |names| :: Key(scope, names[i])
  }

  lemma KeysNext(scope: string, names: seq<string>, n: nat)
    requires n < |names| && Distinct(names)
    ensures KeysOf(scope, names[..n + 1]) == KeysOf(scope, names[..n]) + {Key(scope, names[n])}
    ensures Key(scope, names[n]) !in KeysOf(scope, names[..n])
  {
    var a, b := names[..n], names[..n + 1];
    assert forall i | 0 <= i < n :: a[i] == names[i] && b[i] == names[i] && names[i] != names[n];
    assert b[n] == names[n];
    forall k | k in KeysOf(scope, a)
      ensures k in KeysOf(scope, b)
    {
      var i :| 0 <= i < n && Key(scope, a[i]) == k;
      assert Key(scope, b[i]) == k;
    }
  }

  /** The files left once some are gone, and how many of those there were. */
  function Left(was: Files, keys: set<Key>): Files { was - keys }

  function Gone(was: Files, keys: set<Key>): nat { |was.Keys * keys| }

  lemma OneMoreGone(was: Files, scope: string, names: seq<string>, n: nat)
    requires n < |names| && Distinct(names)
    ensures
      var keys, more, key := KeysOf(scope, names[..n]), KeysOf(scope, names[..n + 1]), Key(scope, names[n]);
      && Left(was, keys) - {key} == Left(was, more)
      && Gone(was, more) == Gone(was, keys) + if key in Left(was, keys) then 1 else 0
  {
    KeysNext(scope, names, n);
    hide KeysOf;
    var keys, key := KeysOf(scope, names[..n]), Key(scope, names[n]);
    assert was.Keys * (keys + {key}) == (was.Keys * keys) + if key in was then {key} else {};
  }

  lemma NothingGone(was: Files, scope: string, names: seq<string>)
    ensures Left(was, KeysOf(scope, names[..0])) == was && Gone(was, KeysOf(scope, names[..0])) == 0
  {
    assert KeysOf(scope, names[..0]) == {};
    assert was.Keys * KeysOf(scope, names[..0]) == {};
  }

  /** The deletion loop after the section: files go in order until one deletion fails. */
  method DeleteFiles(store: LocalArtifactStore, scope: string, doomed: seq<string>)
    returns (ok: bool, deleted: nat, missing: nat)
    requires Distinct(doomed)
    modifies store`files
    ensures deleted + missing <= |doomed| && (ok <==> deleted + missing == |doomed|)
    ensures store.files == Left(old(store.files), KeysOf(scope, doomed[..deleted + missing]))
    ensures |store.files| + deleted == |old(store.files)|
  {
    hide *;
    deleted, missing := 0, 0;
    ghost var was := store.files;
    NothingGone(was, scope, doomed);
    for i := 0 to |doomed|
      invariant deleted + missing == i
      invariant store.files == Left(was, KeysOf(scope, doomed[..i]))
      invariant deleted == Gone(was, KeysOf(scope, doomed[..i]))
    {
      OneMoreGone(was, scope, doomed, i);
      var existed := Key(scope, doomed[i]) in store.files;
      var done: bool := *;
      store.DeleteArtifact(scope, doomed[i], done);
      if !done {
        LeftCount(was, KeysOf(scope, doomed[..i]));
        return false, deleted, missing;
      }
      if existed { deleted := deleted + 1; } else { missing := missing + 1; }
    }
    LeftCount(was, KeysOf(scope, doomed[..|doomed|]));
    ok := true;
  }

  lemma {:induction false} DistinctFit(names: seq<string>, ids: set<string>)
    requires Distinct(names) && forall id | id in names :: id in ids
    ensures |names| <= |ids|
  {
    if names == [] {
    } else {
      var n := |names| - 1;
      assert names[n] in names;
      assert forall i | 0 <= i < n :: names[i] != names[n];
      assert forall id | id in names[..n] :: id in names && id != names[n];
      DistinctFit(names[..n], ids - {names[n]});
    }
  }

  lemma LeftCount(was: Files, keys: set<Key>)
    ensures |Left(was, keys)| + Gone(was, keys) == |was|
  {
    assert Left(was, keys).Keys == was.Keys - keys;
    assert was.Keys == (was.Keys - keys) + (was.Keys * keys);
    assert |Left(was, keys).Keys| == |Left(was, keys)| && |was.Keys| == |was|;
  }

  lemma DoomedFit(rows: seq<Row>, ids: set<string>, deletable: Row -> bool)
    requires UniqueIds(rows)
    ensures Distinct(Doomed(rows, ids, deletable)) && |Doomed(rows, ids, deletable)| <= |ids|
  {
    hide *;
    DoomedAreTargets(rows, ids, deletable);
    DistinctFit(Doomed(rows, ids, deletable), ids);
  }

  /**
   * What a finished scope leaves behind: every target's deletable file is gone, and no other file has
   * changed.
   */
  ghost predicate Cleaned(
    was: Files, now: Files, scope: string, rows: seq<Row>, ids: set<string>, deletable: Row -> bool)
  {
    && (forall r | r in rows && r.id in ids && deletable(r) :: Key(scope, r.id) !in now)
    && (forall k | k in was && !(k.scope == scope && MustGo(rows, ids, deletable, k.id)) ::
          k in now && now[k] == was[k])
  }

  lemma AllDoomedGone(was: Files, scope: string, rows: seq<Row>, ids: set<string>, deletable: Row -> bool)
    requires UniqueIds(rows)
    ensures var doomed := Doomed(rows, ids, deletable);
            Cleaned(was, Left(was, KeysOf(scope, doomed[..|doomed|])), scope, rows, ids, deletable)
  {
    hide Doomed;
    var doomed := Doomed(rows, ids, deletable);
    assert doomed[..|doomed|] == doomed;
    DoomedIff(rows, ids, deletable);
    forall r | r in rows && r.id in ids && deletable(r)
      ensures Key(scope, r.id) in KeysOf(scope, doomed)
    {
      assert MustGo(rows, ids, deletable, r.id);
      var i :| 0 <= i < |doomed| && doomed[i] == r.id;
    }
    assert forall k | k in KeysOf(scope, doomed) :: k.scope == scope && k.id in doomed;
  }

  /** The section: read, bury, write back. */
  method BuryScope(store: LocalArtifactStore, scope: string, ids: set<string>, stamp: Tombstone, deletable: Row -> bool)
    returns (saved: bool, count: nat, doomed: seq<string>)
    requires store.Valid()
    modifies store`index
    ensures store.Valid() && store.OnlyScope(old(store.index), scope)
    ensures !saved ==> store.index == old(store.index)
    ensures saved ==>
      && store.Rows(scope) == After(old(store.Rows(scope)), Expire(ids, stamp))
      && count == |FreshIds(old(store.Rows(scope)), ids)| && doomed == Doomed(old(store.Rows(scope)), ids, deletable)
  {
    hide Sort;
    hide FreshIds;
    hide Doomed;
    if * { return false, 0, []; }
    var rows := store.Rows(scope);
    var after;
    after, count, doomed := BuryTargets(rows, ids, stamp, deletable);
    SectionSorts(rows, Expire(ids, stamp));
    SectionIds(rows, Expire(ids, stamp));
    saved := *;
    store.SaveRows(scope, after, saved);
  }

  /** One scope: the section, then the deletions it allows. */
  method ExpireScope(
    store: LocalArtifactStore, scope: string, ids: set<string>, stamp: Tombstone, deletable: Row -> bool)
    returns (ok: bool, saved: bool, tombstoned: nat, deleted: nat, missing: nat)
    requires store.Valid()
    modifies store
    ensures store.Valid() && store.OnlyScope(old(store.index), scope)
    ensures !saved ==> !ok && store.index == old(store.index) && store.files == old(store.files)
    ensures saved ==> store.Rows(scope) == After(old(store.Rows(scope)), Expire(ids, stamp))
    ensures saved ==> GoneSafely(old(store.files), store.files, scope, ids, store.Rows(scope))
    ensures ok ==>
      && tombstoned == |FreshIds(old(store.Rows(scope)), ids)|
      && deleted + missing <= |ids| && |store.files| + deleted == |old(store.files)|
      && Cleaned(old(store.files), store.files, scope, old(store.Rows(scope)), ids, deletable)
      && deleted + missing == |MustGoIds(old(store.Rows(scope)), ids, deletable)|
  {
    hide *;
    ghost var rows := store.Rows(scope);
    ghost var was := store.files;
    UniqueRows(store, scope);
    ok, deleted, missing := false, 0, 0;
    var doomed;
    saved, tombstoned, doomed := BuryScope(store, scope, ids, stamp, deletable);
    if !saved { return; }
    DoomedFit(rows, ids, deletable);
    ok, deleted, missing := DeleteFiles(store, scope, doomed);
    DoomedGoSafely(was, scope, rows, ids, stamp, deletable, deleted + missing);
    DoomedCount(rows, ids, deletable);
    AllDoomedGone(was, scope, rows, ids, deletable);
  }

  lemma DoomedGoSafely(
    was: Files, scope: string, rows: seq<Row>, ids: set<string>, stamp: Tombstone, deletable: Row -> bool, n: nat)
    requires UniqueIds(rows) && n <= |Doomed(rows, ids, deletable)|
    ensures GoneSafely(was, Left(was, KeysOf(scope, Doomed(rows, ids, deletable)[..n])), scope, ids,
                       After(rows, Expire(ids, stamp)))
  {
    hide Look;
    hide After;
    hide Doomed;
    var doomed := Doomed(rows, ids, deletable);
    DoomedAreTargets(rows, ids, deletable);
    IdsOf(rows);
    forall k | k in KeysOf(scope, doomed[..n])
      ensures k.scope == scope && k.id in ids
      ensures Look(After(rows, Expire(ids, stamp)), k.id).Some?
      ensures Look(After(rows, Expire(ids, stamp)), k.id).value.tombstone.Some?
    {
      assert k.id in doomed;
      ExpiredRow(rows, ids, stamp, k.id);
    }
  }

  // ---- all scopes

  type Index = map<string, seq<Row>>

  function RowsIn(index: Index, scope: string): seq<Row> { if scope in index then index[scope] else [] }

  /** The scope in which each id was listed. */
  predicate ListsAll(home: map<string, string>, index: Index, scopes: set<string>) {
    && (forall s, id | s in scopes && id in Ids(RowsIn(index, s)) :: id in home && home[id] == s)
    && (forall id | id in home :: home[id] in scopes && id in Ids(RowsIn(index, home[id])))
  }

  /** Some id has rows in two scopes. */
  ghost predicate Shared(index: Index, scopes: set<string>) {
    exists s, t, id | s in scopes && t in scopes && s != t :: id in Ids(RowsIn(index, s)) && id in Ids(RowsIn(index, t))
  }

  /** Lists one scope's rows; stops at an id already listed. */
  method ListScope(home: map<string, string>, rows: seq<Row>, scope: string)
    returns (more: map<string, string>, dup: bool)
    requires UniqueIds(rows)
    requires forall id | id in home :: home[id] != scope
    ensures dup <==> exists id | id in Ids(rows) :: id in home
    ensures !dup ==> more == home + map id | id in Ids(rows) :: scope
  {
    more, dup := home, false;
    for i := 0 to |rows|
      invariant forall id | id in home :: id in more && more[id] == home[id]
      invariant forall id | id in more && id !in home :: id in Ids(rows) && more[id] == scope
      invariant forall j | 0 <= j < i :: rows[j].id in more && rows[j].id !in home
      invariant forall j | i <= j < |rows| :: rows[j].id in more ==> rows[j].id in home
    {
      assert rows[i].id in Ids(rows);
      if rows[i].id in more { return more, true; }
      more := more[rows[i].id := scope];
    }
  }

  lemma ListsMore(home: map<string, string>, index: Index, done: set<string>, s: string)
    requires ListsAll(home, index, done) && forall id | id in Ids(RowsIn(index, s)) :: id !in home
    ensures ListsAll(home + map id | id in Ids(RowsIn(index, s)) :: s, index, done + {s})
  {
    hide Ids;
    hide RowsIn;
  }

  lemma ListedTwice(home: map<string, string>, index: Index, done: set<string>, s: string, id: string)
    requires ListsAll(home, index, done) && s !in done && id in Ids(RowsIn(index, s)) && id in home
    ensures forall scopes | done + {s} <= scopes :: Shared(index, scopes)
  {
    hide Ids;
    hide RowsIn;
    assert home[id] != s && id in Ids(RowsIn(index, home[id]));
    forall scopes | done + {s} <= scopes
      ensures Shared(index, scopes)
    {
      assert s in scopes && home[id] in scopes;
    }
  }

  lemma ListedOnce(home: map<string, string>, index: Index, scopes: set<string>)
    requires ListsAll(home, index, scopes)
    ensures !Shared(index, scopes)
  {
    hide Ids;
    hide RowsIn;
    forall s, t, id | s in scopes && t in scopes && s != t
      ensures !(id in Ids(RowsIn(index, s)) && id in Ids(RowsIn(index, t)))
    {
      assert id in Ids(RowsIn(index, s)) ==> id in home && home[id] == s;
      assert id in Ids(RowsIn(index, t)) ==> id in home && home[id] == t;
    }
  }

  /** Lists the scopes; fails exactly if an id appears in two of them. */
  method ListIds(index: Index, scopes: set<string>) returns (home: map<string, string>, dup: bool)
    requires forall s | s in index :: UniqueIds(index[s])
    ensures dup <==> Shared(index, scopes)
    ensures !dup ==> ListsAll(home, index, scopes)
  {
    home, dup := map[], false;
    var todo := scopes;
    ghost var done := {};
    assert ListsAll(home, index, done);
    hide Ids;
    hide ListsAll;
    hide Shared;
    while todo != {}
      invariant done + todo == scopes && done !! todo
      invariant ListsAll(home, index, done)
      invariant forall id | id in home :: home[id] in done
      decreases todo
    {
      var s :| s in todo;
      assert UniqueIds(RowsIn(index, s));
      var more, again := ListScope(home, RowsIn(index, s), s);
      if again {
        ghost var id :| id in Ids(RowsIn(index, s)) && id in home;
        ListedTwice(home, index, done, s, id);
        return home, true;
      }
      ListsMore(home, index, done, s);
      home, todo, done := more, todo - {s}, done + {s};
    }
    assert done == scopes;
    ListedOnce(home, index, scopes);
  }

  /** The targets listed in a scope. */
  function TargetsIn(home: map<string, string>, targets: set<string>, scope: string): set<string> {
    set id | id in targets && id in home && home[id] == scope
  }

  /** The listed targets of several scopes. */
  function TargetsOf(home: map<string, string>, targets: set<string>, scopes: set<string>): set<string> {
    set id | id in targets && id in home && home[id] in scopes
  }

  predicate LiveTarget(home: map<string, string>, targets: set<string>, index: Index, id: string)
    requires id in home
  {
    id in FreshIds(RowsIn(index, home[id]), TargetsIn(home, targets, home[id]))
  }

  /** The listed targets of several scopes that are live. */
  function LiveTargets(home: map<string, string>, targets: set<string>, index: Index, scopes: set<string>)
    : set<string>
  {
    set id | id in home && home[id] in scopes && LiveTarget(home, targets, index, id)
  }

  function Target(home: map<string, string>, targets: set<string>, was: Index, stamp: Tombstone, s: string): seq<Row> {
    After(RowsIn(was, s), Expire(TargetsIn(home, targets, s), stamp))
  }

  /** The finished scopes have their targets buried; the others are as they were. */
  ghost predicate Expired(
    was: Index, now: Index, home: map<string, string>, targets: set<string>, stamp: Tombstone, done: set<string>)
  {
    forall s :: RowsIn(now, s) == if s in done then Target(home, targets, was, stamp, s) else RowsIn(was, s)
  }

  /** The files that are gone belong to buried targets of the finished scopes. */
  ghost predicate AllGoneSafely(
    was: Files, files: Files, home: map<string, string>, targets: set<string>, now: Index, done: set<string>)
  {
    && (forall k | k in files :: k in was && files[k] == was[k])
    && (forall k | k in was && k !in files ::
          && k.scope in done && k.id in TargetsIn(home, targets, k.scope)
          && Look(RowsIn(now, k.scope), k.id).Some? && Look(RowsIn(now, k.scope), k.id).value.tombstone.Some?)
  }

  lemma GoneSafelyNext(
    was: Files, mid: Files, files: Files, home: map<string, string>, targets: set<string>,
    midIndex: Index, now: Index, done: set<string>, s: string)
    requires AllGoneSafely(was, mid, home, targets, midIndex, done) && s !in done
    requires GoneSafely(mid, files, s, TargetsIn(home, targets, s), RowsIn(now, s))
    requires forall t | t != s :: RowsIn(now, t) == RowsIn(midIndex, t)
    ensures AllGoneSafely(was, files, home, targets, now, done + {s})
  {
    hide Look;
    hide RowsIn;
    hide TargetsIn;
    forall k | k in was && k !in files
      ensures k.scope in done + {s} && k.id in TargetsIn(home, targets, k.scope)
      ensures Look(RowsIn(now, k.scope), k.id).Some? && Look(RowsIn(now, k.scope), k.id).value.tombstone.Some?
    {
      if k in mid { assert k.scope == s; } else { assert k.scope in done; }
    }
  }

  /** The finished scopes' targets with deletable files, as keys and as ids. */
  ghost predicate MustGoKey(
    home: map<string, string>, targets: set<string>, index: Index, deletable: Row -> bool, done: set<string>, k: Key)
  {
    k.scope in done && MustGo(RowsIn(index, k.scope), TargetsIn(home, targets, k.scope), deletable, k.id)
  }

  ghost function MustGoTargets(
    home: map<string, string>, targets: set<string>, index: Index, deletable: Row -> bool, done: set<string>)
    : set<string>
  {
    set id | id in home && MustGoKey(home, targets, index, deletable, done, Key(home[id], id))
  }

  /** Exactly those files are gone. */
  ghost predicate AllCleaned(
    was: Files, now: Files, home: map<string, string>, targets: set<string>, index: Index, deletable: Row -> bool,
    done: set<string>)
  {
    && (forall k | MustGoKey(home, targets, index, deletable, done, k) :: k !in now)
    && (forall k | k in was && !MustGoKey(home, targets, index, deletable, done, k) :: k in now && now[k] == was[k])
  }

  lemma CleanedNext(
    was: Files, mid: Files, files: Files, home: map<string, string>, targets: set<string>, index: Index,
    deletable: Row -> bool, done: set<string>, s: string, rows: seq<Row>)
    requires AllCleaned(was, mid, home, targets, index, deletable, done) && s !in done
    requires Cleaned(mid, files, s, RowsIn(index, s), TargetsIn(home, targets, s), deletable)
    requires GoneSafely(mid, files, s, TargetsIn(home, targets, s), rows)
    ensures AllCleaned(was, files, home, targets, index, deletable, done + {s})
  {
    hide RowsIn;
    hide TargetsIn;
    hide Look;
    forall k | MustGoKey(home, targets, index, deletable, done + {s}, k)
      ensures k !in files
    {
      assert k == Key(k.scope, k.id);
      if k.scope != s { assert MustGoKey(home, targets, index, deletable, done, k); }
    }
    forall k | k in was && !MustGoKey(home, targets, index, deletable, done + {s}, k)
      ensures k in files && files[k] == was[k]
    {
      assert !MustGoKey(home, targets, index, deletable, done, k);
    }
  }

  lemma MustGoGrows(
    home: map<string, string>, targets: set<string>, index: Index, deletable: Row -> bool, done: set<string>,
    s: string)
    requires s !in done
    ensures |MustGoTargets(home, targets, index, deletable, done + {s})| ==
            |MustGoTargets(home, targets, index, deletable, done)| +
            |MustGoIds(RowsIn(index, s), TargetsIn(home, targets, s), deletable)|
  {
    hide RowsIn;
    hide MustGo;
    var before := MustGoTargets(home, targets, index, deletable, done);
    var mine := MustGoIds(RowsIn(index, s), TargetsIn(home, targets, s), deletable);
    MustGoOnlyTargets(index, home, targets, deletable);
    assert MustGoTargets(home, targets, index, deletable, done + {s}) == before + mine;
    assert before !! mine;
  }

  lemma MustGoOnlyTargets(index: Index, home: map<string, string>, targets: set<string>, deletable: Row -> bool)
    ensures forall s, id | MustGo(RowsIn(index, s), TargetsIn(home, targets, s), deletable, id) ::
              id in TargetsIn(home, targets, s)
  {
  }

  lemma TargetsGrow(home: map<string, string>, targets: set<string>, done: set<string>, s: string)
    requires s !in done
    ensures |TargetsOf(home, targets, done + {s})| == |TargetsOf(home, targets, done)| + |TargetsIn(home, targets, s)|
  {
    assert TargetsOf(home, targets, done + {s}) == TargetsOf(home, targets, done) + TargetsIn(home, targets, s);
  }

  lemma LiveTargetsGrow(home: map<string, string>, targets: set<string>, index: Index, done: set<string>, s: string)
    requires s !in done
    ensures |LiveTargets(home, targets, index, done + {s})| ==
            |LiveTargets(home, targets, index, done)| + |FreshIds(RowsIn(index, s), TargetsIn(home, targets, s))|
  {
    var mine := FreshIds(RowsIn(index, s), TargetsIn(home, targets, s));
    FreshAreTargets(RowsIn(index, s), TargetsIn(home, targets, s));
    hide FreshIds;
    hide RowsIn;
    var before := LiveTargets(home, targets, index, done);
    assert LiveTargets(home, targets, index, done + {s}) == before + mine;
    assert before !! mine;
  }

  lemma FreshAreTargets(rows: seq<Row>, ids: set<string>)
    ensures FreshIds(rows, ids) <= ids
  {
  }

  lemma LiveAreTargets(home: map<string, string>, targets: set<string>, index: Index, scopes: set<string>)
    ensures |LiveTargets(home, targets, index, scopes)| <= |TargetsOf(home, targets, scopes)|
  {
    forall id | id in LiveTargets(home, targets, index, scopes)
      ensures id in TargetsOf(home, targets, scopes)
    {
      FreshAreTargets(RowsIn(index, home[id]), TargetsIn(home, targets, home[id]));
    }
    Smaller(LiveTargets(home, targets, index, scopes), TargetsOf(home, targets, scopes));
  }

  lemma {:induction false} Smaller(a: set<string>, b: set<string>)
    requires a <= b
    ensures |a| <= |b|
  {
    assert b == a + (b - a);
  }

  lemma ScopeDone(
    was: Index, mid: Index, now: Index, home: map<string, string>, targets: set<string>, stamp: Tombstone,
    done: set<string>, s: string)
    requires Expired(was, mid, home, targets, stamp, done) && s !in done
    requires forall t | t != s :: RowsIn(now, t) == RowsIn(mid, t)
    requires RowsIn(now, s) == After(RowsIn(mid, s), Expire(TargetsIn(home, targets, s), stamp))
    ensures Expired(was, now, home, targets, stamp, done + {s})
  {
    hide RowsIn;
    hide After;
    hide TargetsIn;
  }

  /** One more scope; on failure it is either finished or untouched. */
  method ExpireNext(
    store: LocalArtifactStore, home: map<string, string>, targets: set<string>, stamp: Tombstone,
    deletable: Row -> bool,
    s: string, ghost was: Index, ghost wasFiles: Files, ghost done: set<string>)
    returns (ok: bool, tombstoned: nat, deleted: nat, missing: nat, ghost now: set<string>)
    requires store.Valid() && s !in done
    requires Expired(was, store.index, home, targets, stamp, done)
    requires AllGoneSafely(wasFiles, store.files, home, targets, store.index, done)
    requires AllCleaned(wasFiles, store.files, home, targets, was, deletable, done)
    modifies store
    ensures store.Valid() && done <= now <= done + {s} && (ok ==> now == done + {s})
    ensures Expired(was, store.index, home, targets, stamp, now)
    ensures AllGoneSafely(wasFiles, store.files, home, targets, store.index, now)
    ensures ok ==>
      && tombstoned == |FreshIds(RowsIn(was, s), TargetsIn(home, targets, s))|
      && deleted + missing <= |TargetsIn(home, targets, s)| && |store.files| + deleted == |old(store.files)|
      && AllCleaned(wasFiles, store.files, home, targets, was, deletable, now)
      && deleted + missing == |MustGoIds(RowsIn(was, s), TargetsIn(home, targets, s), deletable)|
  {
    hide After;
    hide FreshIds;
    hide TargetsIn;
    hide AllGoneSafely;
    hide GoneSafely;
    hide AllCleaned;
    hide Cleaned;
    hide MustGoIds;
    ghost var mid, midFiles := store.index, store.files;
    now := done;
    assert RowsIn(mid, s) == RowsIn(was, s);
    hide Expired;
    var saved;
    ok, saved, tombstoned, deleted, missing := ExpireScope(store, s, TargetsIn(home, targets, s), stamp, deletable);
    if saved {
      ScopeDone(was, mid, store.index, home, targets, stamp, done, s);
      GoneSafelyNext(wasFiles, midFiles, store.files, home, targets, mid, store.index, done, s);
      if ok {
        CleanedNext(wasFiles, midFiles, store.files, home, targets, was, deletable, done, s, RowsIn(store.index, s));
      }
      now := done + {s};
    }
  }

  datatype Outcome = Failed | DuplicateId | Done(report: Report)

  /** Every target's scope, and no other. */
  function ScopesOf(home: map<string, string>, targets: set<string>): set<string> {
    set id | id in targets && id in home :: home[id]
  }

  lemma AllTargets(home: map<string, string>, targets: set<string>)
    ensures TargetsOf(home, targets, ScopesOf(home, targets)) == targets * home.Keys
    ensures |targets * home.Keys| <= |targets|
  {
    Smaller(targets * home.Keys, targets);
  }

  lemma MoveOver(done: set<string>, todo: set<string>, s: string)
    requires s in todo && done !! todo
    ensures (done + {s}) + (todo - {s}) == done + todo && (done + {s}) !! (todo - {s})
  {
  }

  /** The loop over the scopes that hold targets. */
  method ExpireAll(
    store: LocalArtifactStore, home: map<string, string>, targets: set<string>, stamp: Tombstone,
    deletable: Row -> bool)
    returns (ok: bool, tombstoned: nat, deleted: nat, missing: nat, ghost done: set<string>)
    requires store.Valid()
    modifies store
    ensures store.Valid() && done <= ScopesOf(home, targets) && (ok ==> done == ScopesOf(home, targets))
    ensures Expired(old(store.index), store.index, home, targets, stamp, done)
    ensures AllGoneSafely(old(store.files), store.files, home, targets, store.index, done)
    ensures ok ==>
      && tombstoned == |LiveTargets(home, targets, old(store.index), done)|
      && deleted + missing <= |TargetsOf(home, targets, done)| && |store.files| + deleted == |old(store.files)|
      && AllCleaned(old(store.files), store.files, home, targets, old(store.index), deletable, done)
      && deleted + missing == |MustGoTargets(home, targets, old(store.index), deletable, done)|
  {
    hide *;
    ghost var was, wasFiles := store.index, store.files;
    tombstoned, deleted, missing, done := 0, 0, 0, {};
    var todo := ScopesOf(home, targets);
    NoTargetsYet(home, targets, was);
    NothingExpired(was, wasFiles, home, targets, stamp);
    NothingCleaned(wasFiles, home, targets, was, deletable);
    while todo != {}
      invariant store.Valid()
      invariant done + todo == ScopesOf(home, targets) && done !! todo
      invariant Expired(was, store.index, home, targets, stamp, done)
      invariant AllGoneSafely(wasFiles, store.files, home, targets, store.index, done)
      invariant tombstoned == |LiveTargets(home, targets, was, done)|
      invariant deleted + missing <= |TargetsOf(home, targets, done)|
      invariant |store.files| + deleted == |wasFiles|
      invariant AllCleaned(wasFiles, store.files, home, targets, was, deletable, done)
      invariant deleted + missing == |MustGoTargets(home, targets, was, deletable, done)|
      decreases todo
    {
      var s :| s in todo;
      MoveOver(done, todo, s);
      TargetsGrow(home, targets, done, s);
      LiveTargetsGrow(home, targets, was, done, s);
      MustGoGrows(home, targets, was, deletable, done, s);
      ghost var now;
      var t, d, m;
      ok, t, d, m, now := ExpireNext(store, home, targets, stamp, deletable, s, was, wasFiles, done);
      if !ok { return false, 0, 0, 0, now; }
      tombstoned, deleted, missing := tombstoned + t, deleted + d, missing + m;
      todo, done := todo - {s}, now;
    }
    ok := true;
  }

  // ---- what a completed call did, over the rows as they were

  ghost predicate IsLive(rows: seq<Row>, id: string) { exists r :: r in rows && r.id == id && r.tombstone.None? }

  /** Live targets are stamped; every other row of every scope is as it was, and none came or went. */
  ghost predicate RowsExpired(was: Index, now: Index, scopes: set<string>, targets: set<string>, stamp: Tombstone) {
    && (forall s, r | s in scopes && r in RowsIn(was, s) && r.id in targets && r.tombstone.None? ::
          r.(tombstone := Some(stamp)) in RowsIn(now, s))
    && (forall s, r | r in RowsIn(was, s) && (s in scopes ==> r.id !in targets || r.tombstone.Some?) ::
          r in RowsIn(now, s))
    && (forall s :: Ids(RowsIn(now, s)) == Ids(RowsIn(was, s)))
  }

  /** Every target's deletable file is gone; every other file is as it was. */
  ghost predicate FilesExpired(
    was: Files, now: Files, index: Index, scopes: set<string>, targets: set<string>, deletable: Row -> bool)
  {
    && (forall s, r | s in scopes && r in RowsIn(index, s) && r.id in targets && deletable(r) :: Key(s, r.id) !in now)
    && (forall k | k in was && !(k.scope in scopes && MustGo(RowsIn(index, k.scope), targets, deletable, k.id)) ::
          k in now && now[k] == was[k])
  }

  lemma StampedRow(rows: seq<Row>, ids: set<string>, stamp: Tombstone, r: Row)
    requires UniqueIds(rows) && r in rows
    ensures var row := if r.id in ids && r.tombstone.None? then r.(tombstone := Some(stamp)) else r;
            row in After(rows, Expire(ids, stamp))
  {
    hide Look;
    hide After;
    LookUnique(rows, r);
    SectionActs(rows, Expire(ids, stamp), r.id);
    LookFinds(After(rows, Expire(ids, stamp)), r.id);
  }

  lemma SameIds(rows: seq<Row>, ids: set<string>, stamp: Tombstone)
    requires UniqueIds(rows)
    ensures Ids(After(rows, Expire(ids, stamp))) == Ids(rows)
  {
    hide Look;
    hide After;
    hide Ids;
    var after := After(rows, Expire(ids, stamp));
    forall id
      ensures id in Ids(after) <==> id in Ids(rows)
    {
      SectionActs(rows, Expire(ids, stamp), id);
      LookFinds(rows, id);
      LookFinds(after, id);
    }
  }

  /** In a listed index, a row's scope is where its id is listed. */
  lemma RowIsListed(home: map<string, string>, index: Index, scopes: set<string>, s: string, r: Row)
    requires ListsAll(home, index, scopes) && s in scopes && r in RowsIn(index, s)
    ensures r.id in home && home[r.id] == s
  {
    hide RowsIn;
    IdsOf(RowsIn(index, s));
  }

  lemma RowsAreExpired(
    was: Index, now: Index, home: map<string, string>, scopes: set<string>, targets: set<string>, stamp: Tombstone)
    requires forall s | s in was :: UniqueIds(was[s])
    requires ListsAll(home, was, scopes)
    requires Expired(was, now, home, targets, stamp, ScopesOf(home, targets))
    ensures RowsExpired(was, now, scopes, targets, stamp)
  {
    hide *;
    var done := ScopesOf(home, targets);
    forall s
      ensures Ids(RowsIn(now, s)) == Ids(RowsIn(was, s))
    {
      ScopeRows(was, now, home, targets, stamp, s);
    }
    forall s, r | s in scopes && r in RowsIn(was, s) && r.id in targets && r.tombstone.None?
      ensures r.(tombstone := Some(stamp)) in RowsIn(now, s)
    {
      RowIsListed(home, was, scopes, s, r);
      ScopeRow(was, now, home, targets, stamp, s, r);
    }
    forall s, r | r in RowsIn(was, s) && (s in scopes ==> r.id !in targets || r.tombstone.Some?)
      ensures r in RowsIn(now, s)
    {
      ListedInside(home, was, scopes);
      ScopeRow(was, now, home, targets, stamp, s, r);
    }
    RowsExpiredDef(was, now, scopes, targets, stamp);
  }

  lemma RowsExpiredDef(was: Index, now: Index, scopes: set<string>, targets: set<string>, stamp: Tombstone)
    requires forall s, r | s in scopes && r in RowsIn(was, s) && r.id in targets && r.tombstone.None? ::
               r.(tombstone := Some(stamp)) in RowsIn(now, s)
    requires forall s, r | r in RowsIn(was, s) && (s in scopes ==> r.id !in targets || r.tombstone.Some?) ::
               r in RowsIn(now, s)
    requires forall s :: Ids(RowsIn(now, s)) == Ids(RowsIn(was, s))
    ensures RowsExpired(was, now, scopes, targets, stamp)
  {
  }

  lemma ListedInside(home: map<string, string>, index: Index, scopes: set<string>)
    requires ListsAll(home, index, scopes)
    ensures forall id | id in home :: home[id] in scopes
  {
  }

  lemma UniqueIn(index: Index, s: string)
    requires forall t | t in index :: UniqueIds(index[t])
    ensures UniqueIds(RowsIn(index, s))
  {
  }

  lemma ScopeRows(
    was: Index, now: Index, home: map<string, string>, targets: set<string>, stamp: Tombstone, s: string)
    requires forall t | t in was :: UniqueIds(was[t])
    requires Expired(was, now, home, targets, stamp, ScopesOf(home, targets))
    ensures Ids(RowsIn(now, s)) == Ids(RowsIn(was, s))
  {
    hide After;
    hide RowsIn;
    hide Ids;
    UniqueIn(was, s);
    SameIds(RowsIn(was, s), TargetsIn(home, targets, s), stamp);
  }

  lemma ScopeRow(
    was: Index, now: Index, home: map<string, string>, targets: set<string>, stamp: Tombstone, s: string, r: Row)
    requires forall t | t in was :: UniqueIds(was[t])
    requires Expired(was, now, home, targets, stamp, ScopesOf(home, targets)) && r in RowsIn(was, s)
    ensures var stamped := r.id in targets && r.id in home && home[r.id] == s && r.tombstone.None?;
            (if stamped then r.(tombstone := Some(stamp)) else r) in RowsIn(now, s)
  {
    hide After;
    hide RowsIn;
    UniqueIn(was, s);
    StampedRow(RowsIn(was, s), TargetsIn(home, targets, s), stamp, r);
  }

  lemma FilesAreExpired(
    was: Files, now: Files, index: Index, home: map<string, string>, scopes: set<string>, targets: set<string>,
    deletable: Row -> bool)
    requires ListsAll(home, index, scopes)
    requires AllCleaned(was, now, home, targets, index, deletable, ScopesOf(home, targets))
    ensures FilesExpired(was, now, index, scopes, targets, deletable)
  {
    hide RowsIn;
    hide ListsAll;
    var done := ScopesOf(home, targets);
    forall s, r | s in scopes && r in RowsIn(index, s) && r.id in targets && deletable(r)
      ensures Key(s, r.id) !in now
    {
      RowIsListed(home, index, scopes, s, r);
      assert MustGoKey(home, targets, index, deletable, done, Key(s, r.id));
    }
    ListedInside(home, index, scopes);
  }

  /** The two counts of a completed call, over the rows as they were. */
  lemma TargetCounts(
    index: Index, home: map<string, string>, scopes: set<string>, targets: set<string>, deletable: Row -> bool)
    requires ListsAll(home, index, scopes)
    ensures LiveTargets(home, targets, index, ScopesOf(home, targets)) ==
            set id | id in targets && id in home && IsLive(RowsIn(index, home[id]), id)
    ensures MustGoTargets(home, targets, index, deletable, ScopesOf(home, targets)) ==
            set id | id in targets && id in home && MustGo(RowsIn(index, home[id]), targets, deletable, id)
  {
    hide RowsIn;
    hide ListsAll;
    forall id | id in targets && id in home && IsLive(RowsIn(index, home[id]), id)
      ensures LiveTarget(home, targets, index, id)
    {
      var rows := RowsIn(index, home[id]);
      var r :| r in rows && r.id == id && r.tombstone.None?;
      var i :| 0 <= i < |rows| && rows[i] == r;
    }
  }

  /**
   * Expires the given records. Whatever fails, rows are only ever buried and a file is gone only
   * after its row is buried for good; the report of a completed call is exact.
   */
  method SafeExpire(
    store: LocalArtifactStore, scope: Option<string>, ids: seq<string>, stamp: Tombstone, deletable: Row -> bool)
    returns (r: Outcome, ghost home: map<string, string>, ghost done: set<string>)
    requires store.Valid()
    modifies store
    ensures store.Valid()
    ensures var scopes := if scope.Some? then {scope.value} else old(store.index).Keys;
            && (Shared(old(store.index), scopes) ==>
                  !r.Done? && store.files == old(store.files) && store.index == old(store.index))
            && (!Shared(old(store.index), scopes) ==> r != DuplicateId && ListsAll(home, old(store.index), scopes))
    ensures var targets := set id | id in ids;
            && Expired(old(store.index), store.index, home, targets, stamp, done)
            && AllGoneSafely(old(store.files), store.files, home, targets, store.index, done)
            && done <= ScopesOf(home, targets)
    ensures r.Done? ==>
      var targets := set id | id in ids;
      && done == ScopesOf(home, targets)
      && r.report.requested == |targets| && r.report.matched == |targets * home.Keys|
      && r.report.tombstoned == |LiveTargets(home, targets, old(store.index), done)|
      && r.report.tombstoned <= r.report.matched <= r.report.requested
      && r.report.deletedFiles + r.report.missingFiles <= r.report.matched
      && |store.files| + r.report.deletedFiles == |old(store.files)|
    ensures r.Done? ==>
      var scopes := if scope.Some? then {scope.value} else old(store.index).Keys;
      var targets := set id | id in ids;
      && RowsExpired(old(store.index), store.index, scopes, targets, stamp)
      && FilesExpired(old(store.files), store.files, old(store.index), scopes, targets, deletable)
      && r.report.tombstoned ==
         |set id | id in targets && id in home && IsLive(RowsIn(old(store.index), home[id]), id)|
      && r.report.deletedFiles + r.report.missingFiles ==
         |set id | id in targets && id in home && MustGo(RowsIn(old(store.index), home[id]), targets, deletable, id)|
  {
    hide *;
    ghost var was, wasFiles := store.index, store.files;
    done := {};
    UniqueIndex(store);
    var scopes := if scope.Some? then {scope.value} else store.index.Keys;
    var listed, dup := ListIds(store.index, scopes);
    home := listed;
    var targets := set id | id in ids;
    NothingExpired(was, wasFiles, home, targets, stamp);
    if dup { return DuplicateId, home, done; }
    if * { return Outcome.Failed, home, done; }
    AllTargets(listed, targets);
    var ok, tombstoned, deleted, missing;
    ok, tombstoned, deleted, missing, done := ExpireAll(store, listed, targets, stamp, deletable);
    if !ok { return Outcome.Failed, home, done; }
    LiveAreTargets(home, targets, was, done);
    RowsAreExpired(was, store.index, home, scopes, targets, stamp);
    FilesAreExpired(wasFiles, store.files, was, home, scopes, targets, deletable);
    TargetCounts(was, home, scopes, targets, deletable);
    r := Done(Report(|targets|, |targets * listed.Keys|, tombstoned, deleted, missing));
  }

  lemma UniqueIndex(store: LocalArtifactStore)
    requires store.Valid()
    ensures forall s | s in store.index :: UniqueIds(store.index[s])
  {
  }

  lemma NothingExpired(was: Index, files: Files, home: map<string, string>, targets: set<string>, stamp: Tombstone)
    ensures Expired(was, was, home, targets, stamp, {}) && AllGoneSafely(files, files, home, targets, was, {})
  {
  }

  lemma NothingCleaned(
    files: Files, home: map<string, string>, targets: set<string>, was: Index, deletable: Row -> bool)
    ensures AllCleaned(files, files, home, targets, was, deletable, {})
    ensures MustGoTargets(home, targets, was, deletable, {}) == {}
  {
  }

  lemma NoTargetsYet(home: map<string, string>, targets: set<string>, was: Index)
    ensures LiveTargets(home, targets, was, {}) == {} && TargetsOf(home, targets, {}) == {}
  {
  }
}
