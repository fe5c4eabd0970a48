/** The `previous_version` graph of one extension: each recorded version points at the version
    that was active when it was installed. A rollback chain is a walk along these pointers. */
module RollbackGraph {
  import opened Prelude

  /** The previous version of each recorded version. */
  type Graph = map<string, Option<string>>

  function Prev(g: Graph, v: string): Option<string> {
    if v in g then g[v] else None
  }

  /** The version `n` rollbacks below `v`, if the chain is that long. */
  function Walk(g: Graph, v: string, n: nat): Option<string>
    decreases n
  {
    if n == 0 then Some(v)
    else match Prev(g, v)
         case None => None
         case Some(u) => Walk(g, u, n - 1)
  }

  ghost predicate Reaches(g: Graph, v: string, target: string) {
    exists n: nat :: Walk(g, v, n) == Some(target)
  }

  /** The chain below `v` comes to an end, so it never revisits a version. */
  ghost predicate Ends(g: Graph, v: string) {
    exists n: nat :: Walk(g, v, n).None?
  }

  ghost predicate Acyclic(g: Graph) {
    forall v :: v in g ==> Ends(g, v)
  }

  predicate Closed(g: Graph) {
    forall v | v in g && g[v].Some? :: g[v].value in g
  }

  // ---- walks

  lemma {:induction false} WalkSplit(g: Graph, v: string, i: nat, j: nat)
    ensures Walk(g, v, i + j) == (match Walk(g, v, i) case None => None case Some(u) => Walk(g, u, j))
    decreases i
  {
    if i > 0 && Prev(g, v).Some? {
      WalkSplit(g, Prev(g, v).value, i - 1, j);
    }
  }

  /** A walk inside a set closed under the pointers stays in it. */
  lemma {:induction false} WalkStays(g: Graph, inside: set<string>, v: string, n: nat)
    requires v in inside
    requires forall u | u in inside && Prev(g, u).Some? :: Prev(g, u).value in inside
    ensures Walk(g, v, n).Some? ==> Walk(g, v, n).value in inside
    decreases n
  {
    if n > 0 && Prev(g, v).Some? {
      WalkStays(g, inside, Prev(g, v).value, n - 1);
    }
  }

  /** A walk inside a set where every pointer leads back into the set never ends. */
  lemma {:induction false} WalkForever(g: Graph, inside: set<string>, v: string, n: nat)
    requires v in inside
    requires forall u | u in inside :: Prev(g, u).Some? && Prev(g, u).value in inside
    ensures Walk(g, v, n).Some?
    decreases n
  {
    if n > 0 {
      WalkForever(g, inside, Prev(g, v).value, n - 1);
    }
  }

  lemma {:induction false} EndsStep(g: Graph, v: string)
    requires Prev(g, v).Some?
    ensures Ends(g, v) <==> Ends(g, Prev(g, v).value)
  {
    if Ends(g, v) {
      var n: nat :| Walk(g, v, n).None?;
      assert Walk(g, Prev(g, v).value, n - 1).None?;
    }
    if Ends(g, Prev(g, v).value) {
      var n: nat :| Walk(g, Prev(g, v).value, n).None?;
      assert Walk(g, v, n + 1).None?;
    }
  }

  lemma EndsUnrecorded(g: Graph, v: string)
    requires Prev(g, v).None?
    ensures Ends(g, v)
  {
    assert Walk(g, v, 1).None?;
  }

  // ---- changing one pointer

  /** Walks that avoid `v` do not notice a new pointer at `v`. */
  lemma {:induction false} WalkAvoids(g: Graph, v: string, to: Option<string>, u: string, n: nat)
    requires forall i: nat | i < n :: Walk(g, u, i) != Some(v)
    ensures Walk(g[v := to], u, n) == Walk(g, u, n)
    decreases n
  {
    if n > 0 {
      assert Walk(g, u, 0) == Some(u);
      if Prev(g, u).Some? {
        forall i: nat | i < n - 1
          ensures Walk(g, Prev(g, u).value, i) != Some(v)
        {
          assert Walk(g, u, i + 1) == Walk(g, Prev(g, u).value, i);
        }
        WalkAvoids(g, v, to, Prev(g, u).value, n - 1);
      }
    }
  }

  /** A chain that ended still ends once `v` is re-pointed, provided the chain at `v` ends. */
  lemma {:induction false} EndsAfterRepoint(g: Graph, v: string, to: Option<string>, u: string, n: nat)
    requires Walk(g, u, n).None?
    requires Ends(g[v := to], v)
    ensures Ends(g[v := to], u)
    decreases n
  {
    if u != v {
      if Prev(g, u).None? {
        EndsUnrecorded(g[v := to], u);
      } else {
        EndsAfterRepoint(g, v, to, Prev(g, u).value, n - 1);
        EndsStep(g[v := to], u);
      }
    }
  }

  /** Pointing `v` at `a` keeps an acyclic graph acyclic exactly when the chain at `a` avoids `v`. */
  lemma {:induction false} RepointAcyclicIff(g: Graph, v: string, a: string)
    requires Acyclic(g)
    ensures Acyclic(g[v := Some(a)]) <==> !Reaches(g, a, v)
  {
    var h := g[v := Some(a)];
    if Reaches(g, a, v) {
      RepointClosesCycle(g, v, a);
      assert v in h;
    } else {
      assert Ends(g, a) by {
        if a !in g { EndsUnrecorded(g, a); }
      }
      var n: nat :| Walk(g, a, n).None?;
      WalkAvoids(g, v, Some(a), a, n);
      EndsStep(h, v);
      forall u | u in h
        ensures Ends(h, u)
      {
        if u in g {
          var k: nat :| Walk(g, u, k).None?;
          EndsAfterRepoint(g, v, Some(a), u, k);
        }
      }
    }
  }

  lemma {:induction false} RepointClosesCycle(g: Graph, v: string, a: string)
    requires Reaches(g, a, v)
    ensures !Ends(g[v := Some(a)], v)
  {
    var h := g[v := Some(a)];
    var n := FirstVisit(g, a, v);
    WalkAvoids(g, v, Some(a), a, n);
    assert Walk(h, v, n + 1) == Some(v);
    forall m: nat
      ensures Walk(h, v, m).Some?
    {
      Periodic(h, v, n + 1, m);
    }
  }

  /** The first step of a walk that reaches `target`. */
  lemma FirstVisit(g: Graph, v: string, target: string) returns (n: nat)
    requires Reaches(g, v, target)
    ensures Walk(g, v, n) == Some(target)
    ensures forall i: nat | i < n :: Walk(g, v, i) != Some(target)
  {
    var k: nat :| Walk(g, v, k) == Some(target);
    n := FirstVisitBelow(g, v, target, k + 1);
  }

  lemma FirstVisitBelow(g: Graph, v: string, target: string, bound: nat) returns (n: nat)
    requires exists i: nat :: i < bound && Walk(g, v, i) == Some(target)
    ensures n < bound && Walk(g, v, n) == Some(target)
    ensures forall i: nat | i < n :: Walk(g, v, i) != Some(target)
    decreases bound
  {
    n :| n < bound && Walk(g, v, n) == Some(target);
    if i: nat :| i < n && Walk(g, v, i) == Some(target) {
      n := FirstVisitBelow(g, v, target, n);
    }
  }

  lemma {:induction false} Periodic(g: Graph, v: string, period: nat, m: nat)
    requires period > 0 && Walk(g, v, period) == Some(v)
    ensures Walk(g, v, m).Some?
    decreases m
  {
    if m < period {
      WalkSplit(g, v, m, period - m);
    } else {
      Periodic(g, v, period, m - period);
      WalkSplit(g, v, period, m - period);
    }
  }

  /** Dropping the pointer at `v` keeps the graph acyclic. */
  lemma {:induction false} UnpointAcyclic(g: Graph, v: string)
    requires Acyclic(g)
    ensures Acyclic(g[v := None])
  {
    var h := g[v := None];
    EndsUnrecorded(h, v);
    forall u | u in h
      ensures Ends(h, u)
    {
      if u in g {
        var k: nat :| Walk(g, u, k).None?;
        EndsAfterRepoint(g, v, None, u, k);
      }
    }
  }

  // ---- the two walks of the source

  /** Walks the rollback chain with the set of visited versions; reports a version met twice. */
  method DetectRollbackCycle(g: Graph, start: string) returns (repeated: Option<string>)
    ensures repeated.None? <==> Ends(g, start)
  {
    var visited: set<string> := {};
    var current := start;
    ghost var steps: nat := 0;
    while current in g
      invariant visited <= g.Keys
      invariant start in visited || start == current
      invariant forall u | u in visited :: Prev(g, u).Some? && Prev(g, u).value in visited + {current}
      invariant Walk(g, start, steps) == Some(current)
      decreases g.Keys - visited
    {
      if current in visited {
        forall n: nat ensures Walk(g, start, n).Some? { WalkForever(g, visited, start, n); }
        return Some(current);
      }
      visited := visited + {current};
      WalkSplit(g, start, steps, 1);
      match g[current]
      case None =>
        assert Walk(g, start, steps + 1).None?;
        return None;
      case Some(u) =>
        assert Walk(g, current, 1) == Some(u) by { assert Walk(g, u, 0) == Some(u); }
        current, steps := u, steps + 1;
    }
    WalkSplit(g, start, steps, 1);
    return None;
  }

  /** The walk `install` makes from the active version, looking for the version being installed. */
  method WouldCreateRollbackCycle(g: Graph, active: Option<string>, version: string) returns (found: bool)
    ensures found <==> active.Some? && Reaches(g, active.value, version)
  {
    var visited: set<string> := {};
    var next := active;
    ghost var steps: nat := 0;
    while next.Some?
      invariant version !in visited
      invariant active.Some? ==> active.value in visited || next == active
      invariant forall u | u in visited && Prev(g, u).Some? :: Prev(g, u) == next || Prev(g, u).value in visited
      invariant next.Some? ==> active.Some? && Walk(g, active.value, steps) == next
      decreases next.Some?, g.Keys - visited
    {
      var current := next.value;
      if current == version {
        return true;
      }
      if current in visited {
        break;
      }
      visited := visited + {current};
      WalkSplit(g, active.value, steps, 1);
      next := if current in g then g[current] else None;
      steps := steps + 1;
      assert next.Some? ==> Walk(g, current, 1) == next;
    }
    if active.Some? {
      forall n: nat ensures Walk(g, active.value, n) != Some(version) { WalkStays(g, visited, active.value, n); }
    }
    return false;
  }
}
