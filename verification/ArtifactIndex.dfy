/** The index of one artifact scope: its rows, and the transformations made to it under the scope lock. */
module ArtifactIndex {
  import opened Prelude

  datatype Tombstone = Tombstone(at: int, reason: string)

  datatype Row = Row(
    id: string,
    uri: string,
    mediaType: string,
    caption: string,
    createdAt: int,
    originalBytes: Option<nat>,
    retainedBytes: Option<nat>,
    tombstone: Option<Tombstone>)

  function Ids(rows: seq<Row>): set<string> {
    set i | 0 <= i < |rows| :: rows[i].id
  }

  predicate UniqueIds(rows: seq<Row>) {
    forall i, j | 0 <= i < j < |rows| :: rows[i].id != rows[j].id
  }

  // ---- the order in which rows are written

  predicate TextAtMost(a: string, b: string) {
    a == "" || (b != "" && (a[0] < b[0] || (a[0] == b[0] && TextAtMost(a[1..], b[1..]))))
  }

  predicate AtMost(r: Row, s: Row) {
    r.createdAt < s.createdAt || (r.createdAt == s.createdAt && TextAtMost(r.id, s.id))
  }

  predicate Sorted(rows: seq<Row>) {
    forall i | 0 <= i < |rows| - 1 :: AtMost(rows[i], rows[i + 1])
  }

  /** Inserts a row after the rows it does not precede. */
  function Insert(rows: seq<Row>, r: Row): (s: seq<Row>)
    ensures |s| == |rows| + 1
    ensures rows == [] || s[|rows|] == rows[|rows| - 1] || s[|rows|] == r
  {
    var n := |rows| - 1;
    if rows == [] || AtMost(rows[n], r) then rows + [r] else Insert(rows[..n], r) + [rows[n]]
  }

  /** A stable sort by creation time and id. */
  function Sort(rows: seq<Row>): seq<Row> {
    if rows == [] then [] else Insert(Sort(rows[..|rows| - 1]), rows[|rows| - 1])
  }

  lemma {:induction false} TextTotal(a: string, b: string)
    ensures TextAtMost(a, b) || TextAtMost(b, a)
  {
    if a != "" && b != "" && a[0] == b[0] { TextTotal(a[1..], b[1..]); }
  }

  lemma {:induction false} InsertSorted(rows: seq<Row>, r: Row)
    requires Sorted(rows)
    ensures Sorted(Insert(rows, r))
  {
    hide TextAtMost;
    var n := |rows| - 1;
    if rows != [] && !AtMost(rows[n], r) {
      TextTotal(rows[n].id, r.id);
      InsertSorted(rows[..n], r);
      var s := Insert(rows[..n], r);
      assert AtMost(s[n], rows[n]);
    }
  }

  lemma {:induction false} InsertKeepsRows(rows: seq<Row>, r: Row)
    ensures multiset(Insert(rows, r)) == multiset(rows) + multiset{r}
  {
    hide AtMost;
    var n := |rows| - 1;
    if rows != [] && !AtMost(rows[n], r) {
      InsertKeepsRows(rows[..n], r);
      assert rows == rows[..n] + [rows[n]];
    }
  }

  lemma {:induction false} SortKeepsRows(rows: seq<Row>)
    ensures multiset(Sort(rows)) == multiset(rows)
  {
    hide AtMost;
    hide Insert;
    if rows == [] {
    } else {
      var n := |rows| - 1;
      SortKeepsRows(rows[..n]);
      InsertKeepsRows(Sort(rows[..n]), rows[n]);
      assert rows == rows[..n] + [rows[n]];
    }
  }

  lemma {:induction false} SortSorts(rows: seq<Row>)
    ensures Sorted(Sort(rows))
  {
    hide AtMost;
    hide Insert;
    if rows == [] {
    } else {
      SortSorts(rows[..|rows| - 1]);
      InsertSorted(Sort(rows[..|rows| - 1]), rows[|rows| - 1]);
    }
  }

  /** A sorted index is written back as it is. */
  lemma {:induction false} SortLeavesSorted(rows: seq<Row>)
    requires Sorted(rows)
    ensures Sort(rows) == rows
  {
    hide AtMost;
    if rows == [] {
    } else {
      var n := |rows| - 1;
      SortLeavesSorted(rows[..n]);
      assert rows == rows[..n] + [rows[n]];
      assert n > 0 ==> AtMost(rows[n - 1], rows[n - 1 + 1]);
    }
  }

  // ---- critical sections

  /** The four read-modify-write sections that run under the scope lock. */
  datatype Work =
    | AppendRow(row: Row)
    | SetBytes(id: string, original: Option<nat>, retained: Option<nat>)
    | DropRow(id: string)
    | Expire(ids: set<string>, stamp: Tombstone)

  function Without(rows: seq<Row>, id: string): seq<Row> {
    if rows == [] then []
    else if rows[0].id == id then Without(rows[1..], id)
    else [rows[0]] + Without(rows[1..], id)
  }

  /** The first row with the id gets the byte counts that are given. */
  function WithBytes(rows: seq<Row>, id: string, original: Option<nat>, retained: Option<nat>): (r: seq<Row>)
    ensures |r| == |rows|
    ensures forall i | 0 <= i < |rows| ::
              r[i] == rows[i].(originalBytes := r[i].originalBytes, retainedBytes := r[i].retainedBytes)
  {
    if rows == [] then []
    else if rows[0].id == id then
      [rows[0].(originalBytes := if original.Some? then original else rows[0].originalBytes,
                retainedBytes := if retained.Some? then retained else rows[0].retainedBytes)] + rows[1..]
    else [rows[0]] + WithBytes(rows[1..], id, original, retained)
  }

  function Bury(r: Row, ids: set<string>, stamp: Tombstone): Row {
    if r.id in ids && r.tombstone.None? then r.(tombstone := Some(stamp)) else r
  }

  function Buried(rows: seq<Row>, ids: set<string>, stamp: Tombstone): (r: seq<Row>)
    ensures |r| == |rows|
  {
    seq(|rows|, i requires 0 <= i < |rows| => Bury(rows[i], ids, stamp))
  }

  /** What a section writes back, given what it read; nothing if it has nothing to write. */
  function Written(rows: seq<Row>, w: Work): Option<seq<Row>> {
    match w
    case AppendRow(row) => Some(Sort(rows + [row]))
    case SetBytes(id, original, retained) =>
      if id !in Ids(rows) || (original.None? && retained.None?) then None
      else Some(Sort(WithBytes(rows, id, original, retained)))
    case DropRow(id) => if id !in Ids(rows) then None else Some(Sort(Without(rows, id)))
    case Expire(ids, stamp) => Some(Sort(Buried(rows, ids, stamp)))
  }

  /** The index after a section, whether or not it wrote. */
  function After(rows: seq<Row>, w: Work): seq<Row> {
    match Written(rows, w)
    case None => rows
    case Some(r) => r
  }

  function Replay(rows: seq<Row>, log: seq<Work>): seq<Row>
    decreases |log|
  {
    if log == [] then rows else After(Replay(rows, log[..|log| - 1]), log[|log| - 1])
  }

  // ---- what sections keep

  lemma SortedMembers(rows: seq<Row>)
    ensures forall r :: r in Sort(rows) <==> r in rows
    ensures Ids(Sort(rows)) == Ids(rows)
  {
    SortKeepsRows(rows);
    assert forall r :: r in Sort(rows) <==> r in multiset(Sort(rows));
    assert forall r :: r in rows <==> r in multiset(rows);
    IdsOf(Sort(rows));
    IdsOf(rows);
  }

  lemma IdsOf(rows: seq<Row>)
    ensures forall id :: id in Ids(rows) <==> exists r :: r in rows && r.id == id
  {
    forall id | exists r :: r in rows && r.id == id
      ensures id in Ids(rows)
    {
      var r :| r in rows && r.id == id;
      var i :| 0 <= i < |rows| && rows[i] == r;
    }
  }

  lemma {:induction false} InsertUnique(rows: seq<Row>, r: Row)
    requires UniqueIds(rows) && r.id !in Ids(rows)
    ensures UniqueIds(Insert(rows, r))
  {
    hide AtMost;
    var n := |rows| - 1;
    if rows != [] && !AtMost(rows[n], r) {
      assert forall i | 0 <= i < n :: rows[..n][i].id == rows[i].id && rows[i].id in Ids(rows);
      assert Ids(rows[..n]) <= Ids(rows);
      InsertUnique(rows[..n], r);
      InsertKeepsRows(rows[..n], r);
      var s := Insert(rows[..n], r);
      forall i | 0 <= i < |s|
        ensures s[i].id != rows[n].id
      {
        assert s[i] in multiset(s);
        assert s[i] in rows[..n] || s[i] == r;
        assert rows[n].id in Ids(rows);
      }
    }
  }

  lemma {:induction false} SortUnique(rows: seq<Row>)
    requires UniqueIds(rows)
    ensures UniqueIds(Sort(rows))
  {
    hide AtMost;
    if rows == [] {
    } else {
      var n := |rows| - 1;
      SortUnique(rows[..n]);
      SortedMembers(rows[..n]);
      assert rows[n].id !in Ids(rows[..n]);
      InsertUnique(Sort(rows[..n]), rows[n]);
    }
  }

  lemma {:induction false} WithoutFacts(rows: seq<Row>, id: string)
    ensures forall r :: r in Without(rows, id) <==> r in rows && r.id != id
    ensures UniqueIds(rows) ==> UniqueIds(Without(rows, id))
  {
    if rows == [] {
    } else {
      var rest := Without(rows[1..], id);
      WithoutFacts(rows[1..], id);
      assert rows == [rows[0]] + rows[1..];
      if UniqueIds(rows) {
        assert UniqueIds(rows[1..]);
        forall j | 0 <= j < |rest|
          ensures rest[j].id != rows[0].id
        {
          assert rest[j] in rest;
          var k :| 0 <= k < |rows[1..]| && rows[1..][k] == rest[j];
          assert rows[k + 1].id != rows[0].id;
        }
      }
    }
  }

  // ---- the index as a table

  function Look(rows: seq<Row>, id: string): Option<Row> {
    if rows == [] then None else if rows[0].id == id then Some(rows[0]) else Look(rows[1..], id)
  }

  lemma {:induction false} LookFinds(rows: seq<Row>, id: string)
    ensures Look(rows, id).Some? ==> Look(rows, id).value in rows && Look(rows, id).value.id == id
    ensures Look(rows, id).None? ==> forall r | r in rows :: r.id != id
    ensures Look(rows, id).Some? <==> id in Ids(rows)
  {
    if rows != [] && rows[0].id != id {
      LookFinds(rows[1..], id);
      assert rows == [rows[0]] + rows[1..];
    }
    IdsOf(rows);
    if rows != [] && rows[0].id == id { assert rows[0] in rows; }
  }

  lemma LookUnique(rows: seq<Row>, r: Row)
    requires UniqueIds(rows)
    requires r in rows
    ensures Look(rows, r.id) == Some(r)
  {
    hide Look;
    LookFinds(rows, r.id);
    var q := Look(rows, r.id).value;
    var i :| 0 <= i < |rows| && rows[i] == r;
    var j :| 0 <= j < |rows| && rows[j] == q;
    assert i < j ==> rows[i].id != rows[j].id;
    assert j < i ==> rows[j].id != rows[i].id;
  }

  /** Two indexes with distinct ids and the same rows look alike. */
  lemma LookSame(rows: seq<Row>, other: seq<Row>, id: string)
    requires UniqueIds(rows) && UniqueIds(other)
    requires forall r: Row | r.id == id :: r in rows <==> r in other
    ensures Look(rows, id) == Look(other, id)
  {
    hide Look;
    hide UniqueIds;
    LookFinds(rows, id);
    LookFinds(other, id);
    if Look(rows, id).Some? { LookUnique(other, Look(rows, id).value); }
  }

  predicate Fits(rows: seq<Row>, w: Work) {
    UniqueIds(rows) && (w.AppendRow? ==> w.row.id !in Ids(rows))
  }

  /** The row a section leaves under an id, from the row it found there. */
  function Touched(found: Option<Row>, w: Work, id: string): Option<Row> {
    match w
    case AppendRow(row) => if id == row.id then Some(row) else found
    case SetBytes(target, original, retained) =>
      if id != target || found.None? then found
      else Some(found.value.(originalBytes := if original.Some? then original else found.value.originalBytes,
                             retainedBytes := if retained.Some? then retained else found.value.retainedBytes))
    case DropRow(target) => if id == target then None else found
    case Expire(ids, stamp) => if found.None? then None else Some(Bury(found.value, ids, stamp))
  }

  lemma {:induction false} WithBytesLook(rows: seq<Row>, target: string, o: Option<nat>, r: Option<nat>, id: string)
    ensures Look(WithBytes(rows, target, o, r), id) == Touched(Look(rows, id), SetBytes(target, o, r), id)
  {
    if rows != [] && rows[0].id != target { WithBytesLook(rows[1..], target, o, r, id); }
  }

  lemma {:induction false} BuriedLook(rows: seq<Row>, ids: set<string>, stamp: Tombstone, id: string)
    ensures Look(Buried(rows, ids, stamp), id) == Touched(Look(rows, id), Expire(ids, stamp), id)
  {
    if rows == [] {
    } else {
      assert Buried(rows, ids, stamp)[1..] == Buried(rows[1..], ids, stamp);
      BuriedLook(rows[1..], ids, stamp, id);
    }
  }

  lemma {:induction false} WithoutLook(rows: seq<Row>, target: string, id: string)
    ensures Look(Without(rows, target), id) == Touched(Look(rows, id), DropRow(target), id)
  {
    if rows == [] {
    } else {
      WithoutLook(rows[1..], target, id);
    }
  }

  lemma {:induction false} AppendLook(rows: seq<Row>, row: Row, id: string)
    requires row.id !in Ids(rows)
    ensures Look(rows + [row], id) == Touched(Look(rows, id), AppendRow(row), id)
  {
    if rows == [] {
      assert rows + [row] == [row];
    } else {
      assert (rows + [row])[1..] == rows[1..] + [row];
      assert row.id !in Ids(rows[1..]) by {
        assert forall i | 0 <= i < |rows[1..]| :: rows[1..][i] == rows[i + 1] && rows[i + 1].id in Ids(rows);
      }
      assert rows[0].id in Ids(rows);
      AppendLook(rows[1..], row, id);
    }
  }

  /** What a section would write, before it is sorted. */
  function Unsorted(rows: seq<Row>, w: Work): seq<Row> {
    match w
    case AppendRow(row) => rows + [row]
    case SetBytes(id, original, retained) => WithBytes(rows, id, original, retained)
    case DropRow(id) => Without(rows, id)
    case Expire(ids, stamp) => Buried(rows, ids, stamp)
  }

  lemma UnsortedUnique(rows: seq<Row>, w: Work)
    requires Fits(rows, w)
    ensures UniqueIds(Unsorted(rows, w))
  {
    match w
    case AppendRow(row) =>
      assert forall i | 0 <= i < |rows| :: rows[i].id in Ids(rows);
    case SetBytes(id, original, retained) =>
      var r := WithBytes(rows, id, original, retained);
      assert forall i | 0 <= i < |rows| :: r[i].id == rows[i].id;
    case DropRow(id) => WithoutFacts(rows, id);
    case Expire(ids, stamp) =>
  }

  lemma UnsortedLook(rows: seq<Row>, w: Work, id: string)
    requires Fits(rows, w)
    ensures Look(Unsorted(rows, w), id) == Touched(Look(rows, id), w, id)
  {
    hide Look;
    match w
    case AppendRow(row) => AppendLook(rows, row, id);
    case SetBytes(target, original, retained) => WithBytesLook(rows, target, original, retained, id);
    case DropRow(target) => WithoutLook(rows, target, id);
    case Expire(ids, stamp) => BuriedLook(rows, ids, stamp, id);
  }

  /** Every section keeps ids distinct and acts on the table exactly as Touched says, whatever the sort does. */
  lemma SectionActs(rows: seq<Row>, w: Work, id: string)
    requires Fits(rows, w)
    ensures UniqueIds(After(rows, w))
    ensures Look(After(rows, w), id) == Touched(Look(rows, id), w, id)
  {
    hide Look;
    hide Sort;
    hide Unsorted;
    var u := Unsorted(rows, w);
    if Written(rows, w).Some? {
      assert Written(rows, w) == Some(Sort(u)) by { WrittenIsSorted(rows, w); }
      UnsortedUnique(rows, w);
      UnsortedLook(rows, w, id);
      SortUnique(u);
      SortedMembers(u);
      LookSame(Sort(u), u, id);
    } else {
      LookFinds(rows, w.id);
    }
  }

  lemma SectionIds(rows: seq<Row>, w: Work)
    requires Fits(rows, w)
    ensures UniqueIds(After(rows, w))
    ensures Ids(After(rows, w)) <= Ids(rows) + (if w.AppendRow? then {w.row.id} else {})
  {
    hide Look;
    hide After;
    SectionActs(rows, w, "");
    forall id | id in Ids(After(rows, w))
      ensures id in Ids(rows) + (if w.AppendRow? then {w.row.id} else {})
    {
      SectionActs(rows, w, id);
      LookFinds(After(rows, w), id);
      LookFinds(rows, id);
    }
  }

  lemma WrittenIsSorted(rows: seq<Row>, w: Work)
    requires Written(rows, w).Some?
    ensures Written(rows, w) == Some(Sort(Unsorted(rows, w)))
  {
  }

  lemma SectionSorts(rows: seq<Row>, w: Work)
    requires Sorted(rows)
    ensures Sorted(After(rows, w))
  {
    hide Sort;
    hide Sorted;
    if Written(rows, w).Some? {
      WrittenIsSorted(rows, w);
      SortSorts(Unsorted(rows, w));
    }
  }

  // ---- the table determines the file

  lemma {:induction false} TextAntisymmetric(a: string, b: string)
    requires TextAtMost(a, b) && TextAtMost(b, a)
    ensures a == b
  {
    if a == "" {
    } else {
      TextAntisymmetric(a[1..], b[1..]);
      assert a == [a[0]] + a[1..] && b == [b[0]] + b[1..];
    }
  }

  lemma {:induction false} TextTransitive(a: string, b: string, c: string)
    requires TextAtMost(a, b) && TextAtMost(b, c)
    ensures TextAtMost(a, c)
  {
    if a != "" && a[0] == b[0] == c[0] { TextTransitive(a[1..], b[1..], c[1..]); }
  }

  lemma {:induction false} LastIsGreatest(rows: seq<Row>, r: Row)
    requires Sorted(rows) && r in rows
    ensures AtMost(r, rows[|rows| - 1])
  {
    hide TextAtMost;
    var n := |rows| - 1;
    if r in rows[..n] {
      LastIsGreatest(rows[..n], r);
      assert AtMost(rows[n - 1], rows[n - 1 + 1]);
      if r.createdAt == rows[n].createdAt { TextTransitive(r.id, rows[n - 1].id, rows[n].id); }
    } else {
      assert rows == rows[..n] + [rows[n]];
      TextTotal(r.id, r.id);
    }
  }

  /** Two sorted indexes with distinct ids and the same table are the same file. */
  lemma {:induction false} TableDeterminesIndex(a: seq<Row>, b: seq<Row>)
    requires Sorted(a) && Sorted(b) && UniqueIds(a) && UniqueIds(b)
    requires forall r :: r in a <==> r in b
    ensures a == b
    decreases |a|
  {
    hide AtMost;
    hide Sorted;
    Inhabited(a);
    Inhabited(b);
    if a == [] {
    } else {
      var n := |a| - 1;
      var m := |b| - 1;
      SameLast(a, b);
      InitSorted(a);
      InitSorted(b);
      InitMembers(a);
      InitMembers(b);
      assert forall r :: r in a[..n] <==> r in a && r != a[n];
      assert forall r :: r in b[..m] <==> r in b && r != b[m];
      TableDeterminesIndex(a[..n], b[..m]);
      assert a == a[..n] + [a[n]] && b == b[..m] + [b[m]];
    }
  }

  lemma Inhabited(rows: seq<Row>)
    ensures rows != [] <==> exists r :: r in rows
  {
    if rows != [] { assert rows[0] in rows; }
  }

  lemma SameLast(a: seq<Row>, b: seq<Row>)
    requires a != [] && b != [] && Sorted(a) && Sorted(b) && UniqueIds(a)
    requires forall r :: r in a <==> r in b
    ensures a[|a| - 1] == b[|b| - 1]
  {
    hide TextAtMost;
    var x := a[|a| - 1];
    var y := b[|b| - 1];
    assert x in a && y in b;
    LastIsGreatest(a, y);
    LastIsGreatest(b, x);
    TextAntisymmetric(x.id, y.id);
    LookUnique(a, x);
    LookUnique(a, y);
  }

  lemma InitSorted(a: seq<Row>)
    requires a != [] && Sorted(a)
    ensures Sorted(a[..|a| - 1])
  {
    hide AtMost;
    var init := a[..|a| - 1];
    forall i | 0 <= i < |init| - 1
      ensures AtMost(init[i], init[i + 1])
    {
      assert AtMost(a[i], a[i + 1]);
    }
  }

  lemma InitMembers(a: seq<Row>)
    requires a != [] && UniqueIds(a)
    ensures UniqueIds(a[..|a| - 1])
    ensures forall r :: r in a[..|a| - 1] <==> r in a && r != a[|a| - 1]
  {
    var n := |a| - 1;
    assert a == a[..n] + [a[n]];
    forall r | r in a[..n]
      ensures r != a[n]
    {
      var i :| 0 <= i < n && a[i] == r;
    }
  }

  /** The same, said of lookups. */
  lemma LooksDetermineIndex(a: seq<Row>, b: seq<Row>)
    requires Sorted(a) && Sorted(b) && UniqueIds(a) && UniqueIds(b)
    requires forall id :: Look(a, id) == Look(b, id)
    ensures a == b
  {
    hide Look;
    hide Sorted;
    hide UniqueIds;
    forall r | r in a
      ensures r in b
    {
      LookUnique(a, r);
      LookFinds(b, r.id);
    }
    forall r | r in b
      ensures r in a
    {
      LookUnique(b, r);
      LookFinds(a, r.id);
    }
    TableDeterminesIndex(a, b);
  }
}
