/** What the artifact index looks like, and what each critical section does to its rows. */
module ArtifactRules {
  import opened Prelude
  import opened ArtifactIndex

  // ---- the order of the rows

  /** Text order: one is a prefix of the other, or they first differ at a smaller character. */
  ghost predicate Precedes(a: string, b: string) {
    a <= b || exists n :: FirstDifference(a, b, n) && a[n] < b[n]
  }

  ghost predicate FirstDifference(a: string, b: string, n: int) {
    0 <= n < |a| && n < |b| && a[..n] == b[..n] && a[n] != b[n]
  }

  lemma DifferAtStart(a: string, b: string, n: int)
    requires FirstDifference(a, b, n)
    ensures n == 0 <==> a[0] != b[0]
  {
    if n > 0 { assert a[..n][0] == b[..n][0]; }
  }

  lemma {:induction false} TextAtMostIff(a: string, b: string)
    ensures TextAtMost(a, b) <==> Precedes(a, b)
  {
    if a == "" || b == "" {
    } else if a[0] != b[0] {
      if a[0] < b[0] { assert FirstDifference(a, b, 0); }
      forall n | FirstDifference(a, b, n)
        ensures n == 0
      {
        DifferAtStart(a, b, n);
      }
    } else {
      TextAtMostIff(a[1..], b[1..]);
      if exists n :: FirstDifference(a[1..], b[1..], n) && a[1..][n] < b[1..][n] {
        var n :| FirstDifference(a[1..], b[1..], n) && a[1..][n] < b[1..][n];
        assert a[..n + 1] == [a[0]] + a[1..][..n] && b[..n + 1] == [b[0]] + b[1..][..n];
        assert FirstDifference(a, b, n + 1);
      }
      if exists n :: FirstDifference(a, b, n) && a[n] < b[n] {
        var n :| FirstDifference(a, b, n) && a[n] < b[n];
        assert a[1..][..n - 1] == a[..n][1..] && b[1..][..n - 1] == b[..n][1..];
        assert FirstDifference(a[1..], b[1..], n - 1);
      }
      assert a <= b <==> a[1..] <= b[1..];
    }
  }

  /** Older rows come first, and rows of the same age by id. */
  ghost predicate InOrder(r: Row, s: Row) {
    r.createdAt < s.createdAt || (r.createdAt == s.createdAt && Precedes(r.id, s.id))
  }

  lemma {:induction false} SortedPairs(rows: seq<Row>, i: nat, j: nat)
    requires Sorted(rows) && i < j < |rows|
    ensures AtMost(rows[i], rows[j])
  {
    hide TextAtMost;
    if j == i + 1 {
    } else {
      SortedPairs(rows, i, j - 1);
      assert AtMost(rows[j - 1], rows[j - 1 + 1]);
      if rows[i].createdAt == rows[j - 1].createdAt == rows[j].createdAt {
        TextTransitive(rows[i].id, rows[j - 1].id, rows[j].id);
      }
    }
  }

  /** What every section writes is in order throughout. */
  lemma SectionsKeepOrder(rows: seq<Row>, w: Work, i: nat, j: nat)
    requires Sorted(rows) && i < j < |After(rows, w)|
    ensures InOrder(After(rows, w)[i], After(rows, w)[j])
  {
    hide After;
    hide Precedes;
    hide Sorted;
    SectionSorts(rows, w);
    SortedPairs(After(rows, w), i, j);
    TextAtMostIff(After(rows, w)[i].id, After(rows, w)[j].id);
  }

  // ---- what each section does

  lemma RowsAfter(rows: seq<Row>, w: Work, r: Row)
    requires Fits(rows, w)
    ensures r in After(rows, w) <==> Touched(Look(rows, r.id), w, r.id) == Some(r)
  {
    hide Look;
    hide After;
    hide Touched;
    SectionActs(rows, w, r.id);
    LookFinds(After(rows, w), r.id);
    if r in After(rows, w) { LookUnique(After(rows, w), r); }
  }

  lemma RowIsFound(rows: seq<Row>, r: Row)
    requires UniqueIds(rows)
    ensures r in rows <==> Look(rows, r.id) == Some(r)
  {
    hide Look;
    hide UniqueIds;
    LookFinds(rows, r.id);
    if r in rows { LookUnique(rows, r); }
  }

  /** Appending adds the row and keeps every other. */
  lemma AppendSays(rows: seq<Row>, row: Row, r: Row)
    requires UniqueIds(rows) && row.id !in Ids(rows)
    ensures r in After(rows, AppendRow(row)) <==> r in rows || r == row
  {
    hide Look;
    hide After;
    RowsAfter(rows, AppendRow(row), r);
    RowIsFound(rows, r);
    IdsOf(rows);
  }

  /** Dropping takes the id's row away and keeps every other. */
  lemma DropSays(rows: seq<Row>, id: string, r: Row)
    requires UniqueIds(rows)
    ensures r in After(rows, DropRow(id)) <==> r in rows && r.id != id
  {
    hide Look;
    hide After;
    RowsAfter(rows, DropRow(id), r);
    RowIsFound(rows, r);
  }

  /** The byte counts that are given are set on the id's row; nothing else of any row changes. */
  lemma SetBytesSays(rows: seq<Row>, id: string, original: Option<nat>, retained: Option<nat>, r: Row)
    requires UniqueIds(rows) && r in rows
    ensures var after := After(rows, SetBytes(id, original, retained));
            && |after| == |rows|
            && if r.id != id then r in after
               else exists s | s in after ::
                      && s == r.(originalBytes := s.originalBytes, retainedBytes := s.retainedBytes)
                      && (original.Some? ==> s.originalBytes == original)
                      && (original.None? ==> s.originalBytes == r.originalBytes)
                      && (retained.Some? ==> s.retainedBytes == retained)
                      && (retained.None? ==> s.retainedBytes == r.retainedBytes)
  {
    hide Look;
    hide After;
    var w := SetBytes(id, original, retained);
    RowIsFound(rows, r);
    AfterCount(rows, id, original, retained);
    if r.id != id {
      RowsAfter(rows, w, r);
    } else {
      var s := r.(originalBytes := if original.Some? then original else r.originalBytes,
                  retainedBytes := if retained.Some? then retained else r.retainedBytes);
      RowsAfter(rows, w, s);
      assert s in After(rows, w);
    }
  }

  lemma AfterCount(rows: seq<Row>, id: string, original: Option<nat>, retained: Option<nat>)
    ensures |After(rows, SetBytes(id, original, retained))| == |rows|
  {
    hide Sort;
    SortCount(WithBytes(rows, id, original, retained));
  }

  lemma SortCount(rows: seq<Row>)
    ensures |Sort(rows)| == |rows|
  {
    SortKeepsRows(rows);
    assert |multiset(Sort(rows))| == |multiset(rows)|;
  }

  /** Expiry stamps the live rows among its targets; nothing else of any row changes. */
  lemma ExpireSays(rows: seq<Row>, ids: set<string>, stamp: Tombstone, r: Row)
    requires UniqueIds(rows) && r in rows
    ensures var after := After(rows, Expire(ids, stamp));
            && |after| == |rows|
            && (if r.id in ids && r.tombstone == None then r.(tombstone := Some(stamp)) in after else r in after)
  {
    hide Look;
    hide After;
    RowIsFound(rows, r);
    ExpireCount(rows, ids, stamp);
    RowsAfter(rows, Expire(ids, stamp), if r.id in ids && r.tombstone == None then r.(tombstone := Some(stamp)) else r);
  }

  lemma ExpireCount(rows: seq<Row>, ids: set<string>, stamp: Tombstone)
    ensures |After(rows, Expire(ids, stamp))| == |rows|
  {
    hide Sort;
    SortCount(Buried(rows, ids, stamp));
  }
}
