/** The local artifact store: files and scope indexes on a disk where any step may fail. */
module ArtifactStore {
  import opened Prelude
  import opened Utf8
  import opened ArtifactIndex
  import opened ToolResults

  /** The file of an artifact: its name begins with the artifact's id. */
  datatype Key = Key(scope: string, id: string)

  type Files = map<Key, seq<Byte>>

  /** Two sets of files differ at most in the files of the given ids of a scope. */
  ghost predicate SameFilesBut(f: Files, g: Files, scope: string, ids: set<string>) {
    forall k: Key | !(k.scope == scope && k.id in ids) :: (k in f <==> k in g) && (k in f ==> f[k] == g[k])
  }

  /** Two indexes differ at most in the rows of the given ids. */
  ghost predicate SameRowsBut(a: seq<Row>, b: seq<Row>, ids: set<string>) {
    forall id | id !in ids :: Look(a, id) == Look(b, id)
  }

  /** Taking every one of the ids away again restores the files and the index exactly. */
  lemma UndoneFiles(f: Files, g: Files, scope: string, ids: set<string>)
    requires SameFilesBut(f, g, scope, ids)
    requires forall id | id in ids :: Key(scope, id) !in f && Key(scope, id) !in g
    ensures f == g
  {
    forall k: Key
      ensures (k in f <==> k in g) && (k in f ==> f[k] == g[k])
    {
      if k.scope == scope && k.id in ids { assert k == Key(scope, k.id); }
    }
  }

  lemma UndoneRows(a: seq<Row>, b: seq<Row>, ids: set<string>)
    requires Sorted(a) && Sorted(b) && UniqueIds(a) && UniqueIds(b)
    requires SameRowsBut(a, b, ids)
    requires forall id | id in ids :: Look(a, id) == None && Look(b, id) == None
    ensures a == b
  {
    hide Look;
    hide Sorted;
    hide UniqueIds;
    LooksDetermineIndex(a, b);
  }

  /** The update loop: only the first row with the id is touched. */
  method UpdateFirst(rows: seq<Row>, id: string, original: Option<nat>, retained: Option<nat>)
    returns (updated: seq<Row>, found: bool)
    ensures found <==> id in Ids(rows)
    ensures updated == WithBytes(rows, id, original, retained)
  {
    updated, found := rows, false;
    for i := 0 to |rows|
      invariant !found && updated == rows && forall j | 0 <= j < i :: rows[j].id != id
    {
      if rows[i].id == id {
        var r := rows[i];
        if original.Some? { r := r.(originalBytes := original); }
        if retained.Some? { r := r.(retainedBytes := retained); }
        updated, found := rows[i := r], true;
        UpdatedAt(rows, i, id, original, retained);
        return;
      }
    }
    NothingToUpdate(rows, id, original, retained);
  }

  lemma {:induction false} UpdatedAt(rows: seq<Row>, i: nat, id: string, original: Option<nat>, retained: Option<nat>)
    requires i < |rows| && rows[i].id == id && forall j | 0 <= j < i :: rows[j].id != id
    ensures WithBytes(rows, id, original, retained) ==
            rows[i := rows[i].(originalBytes := if original.Some? then original else rows[i].originalBytes,
                               retainedBytes := if retained.Some? then retained else rows[i].retainedBytes)]
  {
    if i > 0 {
      UpdatedAt(rows[1..], i - 1, id, original, retained);
    }
  }

  lemma {:induction false} NothingToUpdate(rows: seq<Row>, id: string, original: Option<nat>, retained: Option<nat>)
    requires forall j | 0 <= j < |rows| :: rows[j].id != id
    ensures WithBytes(rows, id, original, retained) == rows
  {
    if rows == [] {
    } else {
      NothingToUpdate(rows[1..], id, original, retained);
    }
  }

  /**
   * What the disk does to a write: the file is not placed; it is placed but its path cannot be read
   * back and the writer gives up; it is placed but the index is not written, and each of two attempts
   * to delete it works or not; or all goes well.
   */
  datatype WriteFate = NotPlaced | Abandoned | Unindexed(deleted: bool, removed: bool) | Indexed

  /** What the disk does to one spilled artifact: its write, its size update, and taking it back. */
  datatype Fate = Fate(write: WriteFate, updated: bool, deleted: bool, dropped: bool) {
    predicate Holds() { write.Indexed? && updated }

    /** Whether the deletions that are tried work. */
    predicate CleansUp() {
      match write
      case Unindexed(first, second) => first || second
      case Indexed => deleted
      case _ => true
    }

    /** Once the write is given up or taken back, no file is left: nothing is tried for an abandoned one. */
    predicate ClearsFile() { !write.Abandoned? && CleansUp() }

    predicate ClearsRow() { write.Indexed? ==> dropped }
  }

  /** The files once those of the ids whose deletion works are gone. */
  ghost predicate FilesTakenBack(f: Files, g: Files, scope: string, ids: set<string>, disk: string -> Fate) {
    forall k: Key ::
      && (k in f <==> k in g && !(k.scope == scope && k.id in ids && disk(k.id).deleted))
      && (k in f ==> f[k] == g[k])
  }

  /** The rows once those of the ids that can be dropped are gone. */
  ghost predicate RowsTakenBack(a: seq<Row>, b: seq<Row>, ids: set<string>, disk: string -> Fate) {
    forall id :: Look(a, id) == if id in ids && disk(id).dropped then None else Look(b, id)
  }

  class LocalArtifactStore {
    var files: Files
    var index: map<string, seq<Row>>

    constructor ()
      ensures Valid() && files == map[] && index == map[]
    {
      files, index := map[], map[];
    }

    ghost predicate Valid()
      reads this`index
    {
      forall scope | scope in index :: Sorted(index[scope]) && UniqueIds(index[scope])
    }

    /** A scope without an index file has no rows. */
    function Rows(scope: string): seq<Row>
      reads this`index
    {
      if scope in index then index[scope] else []
    }

    ghost predicate OnlyScope(was: map<string, seq<Row>>, scope: string)
      reads this`index
    {
      forall other | other != scope ::
        (other in index <==> other in was) && (other in was ==> index[other] == was[other])
    }

    /** Writing an index replaces it whole if the disk lets it; an empty index has no file. */
    method SaveRows(scope: string, rows: seq<Row>, works: bool)
      modifies this`index
      ensures OnlyScope(old(index), scope)
      ensures if works then Rows(scope) == Sort(rows) else index == old(index)
    {
      if !works { return; }
      if rows == [] {
        index := index - {scope};
      } else {
        index := index[scope := Sort(rows)];
      }
    }

    /** Deletes the file of an artifact, if there is one and the disk lets it. */
    method DeleteArtifact(scope: string, id: string, works: bool)
      modifies this`files
      ensures files == if works then old(files) - {Key(scope, id)} else old(files)
    {
      if works { files := files - {Key(scope, id)}; }
    }

    /**
     * Stores bytes under a new id. A failed write leaves the index alone, and it leaves the files as
     * they were exactly if the file was not abandoned and one of the two deletions worked.
     */
    method WriteBytes(scope: string, row: Row, bytes: seq<Byte>, fate: WriteFate) returns (r: Option<OutputRef>)
      requires Valid() && row.id !in Ids(Rows(scope)) && Key(scope, row.id) !in files
      modifies this
      ensures Valid() && OnlyScope(old(index), scope)
      ensures r.Some? <==> fate.Indexed?
      ensures r.Some? ==>
        && r.value == OutputRef(row.id, row.uri, row.mediaType, Some(row.caption), None)
        && files == old(files)[Key(scope, row.id) := bytes]
        && Rows(scope) == After(old(Rows(scope)), AppendRow(row))
      ensures r.None? ==>
        && index == old(index)
        && (files == old(files) <==> !fate.Abandoned? && (fate.Unindexed? ==> fate.deleted || fate.removed))
        && (files != old(files) ==> files == old(files)[Key(scope, row.id) := bytes])
    {
      hide Sort;
      var key := Key(scope, row.id);
      if fate.NotPlaced? { return None; }
      files := files[key := bytes];
      assert key in files;
      if fate.Abandoned? { return None; }
      ghost var was := Rows(scope);
      SectionSorts(was, AppendRow(row));
      SectionIds(was, AppendRow(row));
      SaveRows(scope, Rows(scope) + [row], fate.Indexed?);
      if !fate.Indexed? {
        DeleteArtifact(scope, row.id, fate.deleted);
        DeleteArtifact(scope, row.id, fate.removed);
        assert fate.deleted || fate.removed ==> files == old(files);
        return None;
      }
      return Some(OutputRef(row.id, row.uri, row.mediaType, Some(row.caption), None));
    }

    method UpdateRecordBytes(scope: string, id: string, original: Option<nat>, retained: Option<nat>, works: bool)
      returns (ok: bool)
      requires Valid()
      modifies this`index
      ensures Valid() && OnlyScope(old(index), scope)
      ensures ok <==> works && id in Ids(old(Rows(scope)))
      ensures if ok then Rows(scope) == After(old(Rows(scope)), SetBytes(id, original, retained))
        else index == old(index)
    {
      hide Sort;
      if !works { return false; }
      ghost var was := Rows(scope);
      var rows, found := UpdateFirst(Rows(scope), id, original, retained);
      if !found { return false; }
      if original.None? && retained.None? { return true; }
      SectionSorts(was, SetBytes(id, original, retained));
      SectionIds(was, SetBytes(id, original, retained));
      SaveRows(scope, rows, true);
      return true;
    }

    method RemoveRecord(scope: string, id: string, works: bool) returns (ok: bool)
      requires Valid()
      modifies this`index
      ensures Valid() && OnlyScope(old(index), scope)
      ensures ok <==> works && id in Ids(old(Rows(scope)))
      ensures if ok then Rows(scope) == After(old(Rows(scope)), DropRow(id)) else index == old(index)
    {
      hide Sort;
      if !works { return false; }
      var rows := Rows(scope);
      if id !in Ids(rows) { return false; }
      SectionSorts(rows, DropRow(id));
      SectionIds(rows, DropRow(id));
      SaveRows(scope, Without(rows, id), true);
      return true;
    }

    /** Takes one write back; a failure of either part is passed over. */
    method TakeBack(scope: string, id: string, disk: string -> Fate)
      requires Valid()
      modifies this
      ensures Valid() && OnlyScope(old(index), scope)
      ensures FilesTakenBack(files, old(files), scope, {id}, disk)
      ensures RowsTakenBack(Rows(scope), old(Rows(scope)), {id}, disk)
    {
      hide Look;
      hide After;
      ghost var was := Rows(scope);
      LookFinds(was, id);
      DeleteArtifact(scope, id, disk(id).deleted);
      assert forall k: Key | k.scope == scope && k.id == id :: k == Key(scope, id);
      var gone := RemoveRecord(scope, id, disk(id).dropped);
      forall other
        ensures gone ==> Look(Rows(scope), other) == Touched(Look(was, other), DropRow(id), other)
      {
        if gone { SectionActs(was, DropRow(id), other); }
      }
    }

    /** Takes back what a failed spill wrote, in order: exactly what the disk lets go is gone. */
    method RollBack(scope: string, written: seq<OutputRef>, disk: string -> Fate)
      requires Valid()
      modifies this
      ensures Valid() && OnlyScope(old(index), scope)
      ensures FilesTakenBack(files, old(files), scope, RefIds(written), disk)
      ensures RowsTakenBack(Rows(scope), old(Rows(scope)), RefIds(written), disk)
    {
      hide Look;
      hide Rows;
      for i := 0 to |written|
        invariant Valid() && OnlyScope(old(index), scope)
        invariant FilesTakenBack(files, old(files), scope, RefIds(written[..i]), disk)
        invariant RowsTakenBack(Rows(scope), old(Rows(scope)), RefIds(written[..i]), disk)
      {
        RefIdsNext(written, i);
        TakeBack(scope, written[i].id, disk);
      }
      assert written[..|written|] == written;
    }
  }

  lemma UniqueRows(store: LocalArtifactStore, scope: string)
    requires store.Valid()
    ensures UniqueIds(store.Rows(scope)) && Sorted(store.Rows(scope))
  {
  }

  function RefIds(refs: seq<OutputRef>): set<string> {
    set i | 0 <= i < |refs| :: refs[i].id
  }

  lemma RefIdsNext(refs: seq<OutputRef>, n: nat)
    requires n < |refs|
    ensures RefIds(refs[..n + 1]) == RefIds(refs[..n]) + {refs[n].id}
  {
    assert forall i | 0 <= i < n :: refs[..n + 1][i] == refs[..n][i];
    assert refs[..n + 1][n] == refs[n];
    forall id | id in RefIds(refs[..n])
      ensures id in RefIds(refs[..n + 1])
    {
      var i :| 0 <= i < n && refs[..n][i].id == id;
      assert refs[..n + 1][i].id == id;
    }
  }
}
