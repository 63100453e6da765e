/** The prerequisite graph of a course: which modules a module directly depends on. */
module PrerequisiteGraph {
  import opened Common

  type Edges = map<Id, seq<Id>>

  function Next(edges: Edges, m: Id): seq<Id> {
    if m in edges then edges[m] else []
  }

  /** A walk along prerequisite edges; a single node is the walk of no edges. */
  predicate IsPath(edges: Edges, p: seq<Id>) {
    |p| > 0 && forall i :: 0 <= i < |p| - 1 ==> p[i + 1] in Next(edges, p[i])
  }

  ghost predicate PathBetween(edges: Edges, p: seq<Id>, a: Id, b: Id) {
    IsPath(edges, p) && p[0] == a && p[|p| - 1] == b
  }

  ghost predicate Reaches(edges: Edges, a: Id, b: Id) {
    exists p :: PathBetween(edges, p, a, b)
  }

  ghost predicate Acyclic(edges: Edges) {
    forall p :: IsPath(edges, p) && |p| > 1 ==> p[0] != p[|p| - 1]
  }

  /** The graph with every `m -> p`, `p` in `ps`, added. */
  function AddEdges(edges: Edges, m: Id, ps: seq<Id>): Edges {
    edges[m := Next(edges, m) + ps]
  }

  // ---------- paths ----------

  lemma ReachesSelf(edges: Edges, a: Id)
    ensures Reaches(edges, a, a)
  {
    assert PathBetween(edges, [a], a, a);
  }

  lemma ReachesStep(edges: Edges, a: Id, b: Id, c: Id)
    requires Reaches(edges, a, b) && c in Next(edges, b)
    ensures Reaches(edges, a, c)
  {
    var p :| PathBetween(edges, p, a, b);
    assert PathBetween(edges, p + [c], a, c);
  }

  lemma JoinPaths(edges: Edges, p: seq<Id>, q: seq<Id>)
    requires IsPath(edges, p) && IsPath(edges, q) && p[|p| - 1] == q[0]
    ensures PathBetween(edges, p + q[1..], p[0], q[|q| - 1])
  {
  }

  /** Nothing outside a set closed under the edges can be reached from inside it. */
  lemma {:induction false} ClosedSetIsNotLeft(edges: Edges, closed: set<Id>, p: seq<Id>)
    requires forall v, w :: v in closed && w in Next(edges, v) ==> w in closed
    requires IsPath(edges, p) && p[0] in closed
    ensures p[|p| - 1] in closed
    decreases |p|
  {
    if |p| > 1 {
      assert p[1] in Next(edges, p[0]);
      ClosedSetIsNotLeft(edges, closed, p[1..]);
    }
  }

  // ---------- the depth-first search ----------

  /** Every node the search can ever put on its stack. */
  ghost function Universe(edges: Edges, to: Id): set<Id> {
    {to} + set m, i | m in edges && 0 <= i < |edges[m]| :: edges[m][i]
  }

  /**
   * The stack-and-visited search. It terminates on every finite edge map, cyclic ones included, and
   * answers whether `to` already reaches `from`.
   */
  method WouldCreateCycle(edges: Edges, from: Id, to: Id) returns (cycle: bool)
    ensures cycle <==> from == to || Reaches(edges, to, from)
  {
    if from == to {
      return true;
    }
    var visited: set<Id> := {};
    var stack := [to];
    ReachesSelf(edges, to);
    ghost var universe := Universe(edges, to);
    while |stack| > 0
      invariant visited <= universe && from !in visited
      invariant forall v :: v in stack ==> v in universe
      invariant forall v :: v in visited || v in stack ==> Reaches(edges, to, v)
      invariant to in visited || to in stack
      invariant forall v, w :: v in visited && w in Next(edges, v) ==> w in visited || w in stack
      decreases universe - visited, |stack|
    {
      var current := stack[|stack| - 1];
      ghost var before := stack;
      stack := stack[..|stack| - 1];
      assert forall v :: v in before <==> v in stack || v == current;
      if current == from {
        return true;
      }
      if current in visited {
        continue;
      }
      assert universe - (visited + {current}) < universe - visited by {
        assert current in universe - visited;
      }
      visited := visited + {current};
      stack := PushAll(edges, to, stack, current);
    }
    if Reaches(edges, to, from) {
      var p :| PathBetween(edges, p, to, from);
      ClosedSetIsNotLeft(edges, visited, p);
    }
    return false;
  }

  /** The inner loop: push every direct prerequisite of `current`. */
  method PushAll(edges: Edges, ghost to: Id, stack: seq<Id>, current: Id) returns (grown: seq<Id>)
    requires Reaches(edges, to, current)
    ensures grown == stack + Next(edges, current)
    ensures forall v :: v in Next(edges, current) ==> v in Universe(edges, to) && Reaches(edges, to, v)
  {
    grown := stack;
    var next := Next(edges, current);
    for i := 0 to |next|
      invariant grown == stack + next[..i]
    {
      grown := grown + [next[i]];
    }
    forall v | v in next ensures v in Universe(edges, to) && Reaches(edges, to, v) {
      ReachesStep(edges, to, current, v);
    }
  }

  // ---------- adding edges keeps the graph acyclic ----------

  /** The walk up to its first added edge is a walk of the old graph. */
  lemma {:induction false} FirstAddedEdge(edges: Edges, m: Id, ps: seq<Id>, c: seq<Id>) returns (j: nat)
    requires IsPath(AddEdges(edges, m, ps), c) && !IsPath(edges, c)
    ensures j < |c| - 1 && c[j] == m && c[j + 1] in ps && IsPath(edges, c[..j + 1])
    decreases |c|
  {
    assert |c| > 1;
    if c[1] in Next(edges, c[0]) {
      var rest := FirstAddedEdge(edges, m, ps, c[1..]);
      j := rest + 1;
      forall i | 0 <= i < j ensures c[i + 1] in Next(edges, c[i]) {
        if i > 0 {
          assert c[1..][..rest + 1][i - 1] == c[i] && c[1..][..rest + 1][i] == c[i + 1];
        }
      }
    } else {
      j := 0;
    }
  }

  /** The walk after its last added edge is a walk of the old graph. */
  lemma {:induction false} LastAddedEdge(edges: Edges, m: Id, ps: seq<Id>, c: seq<Id>) returns (j: nat)
    requires IsPath(AddEdges(edges, m, ps), c) && !IsPath(edges, c)
    ensures j < |c| - 1 && c[j] == m && c[j + 1] in ps && IsPath(edges, c[j + 1..])
    decreases |c|
  {
    if IsPath(edges, c[1..]) {
      j := 0;
      assert c[1] !in Next(edges, c[0]) by {
        if c[1] in Next(edges, c[0]) {
          PrependStep(edges, c);
        }
      }
    } else {
      var rest := LastAddedEdge(edges, m, ps, c[1..]);
      j := rest + 1;
      assert c[1..][rest + 1..] == c[j + 1..];
    }
  }

  lemma PrependStep(edges: Edges, c: seq<Id>)
    requires |c| > 1 && c[1] in Next(edges, c[0]) && IsPath(edges, c[1..])
    ensures IsPath(edges, c)
  {
  }

  /** A requested edge whose target already reaches its source closes a loop. */
  lemma EdgeClosesLoop(edges: Edges, m: Id, ps: seq<Id>, p: Id)
    requires p in ps && Reaches(edges, p, m)
    ensures !Acyclic(AddEdges(edges, m, ps))
  {
    var q :| PathBetween(edges, q, p, m);
    var grown := AddEdges(edges, m, ps);
    forall i | 0 <= i < |q| - 1 ensures q[i + 1] in Next(grown, q[i]) {
    }
    assert ([m] + q)[1..] == q && ([m] + q)[|q|] == m;
    PrependStep(grown, [m] + q);
  }

  /** A loop of the grown graph that the old graph does not have runs through a request that fails its check. */
  lemma LoopNeedsBadEdge(edges: Edges, m: Id, ps: seq<Id>, c: seq<Id>) returns (p: Id)
    requires IsPath(AddEdges(edges, m, ps), c) && !IsPath(edges, c) && c[0] == c[|c| - 1]
    ensures p in ps && Reaches(edges, p, m)
  {
    var i := FirstAddedEdge(edges, m, ps, c);
    var j := LastAddedEdge(edges, m, ps, c);
    JoinPaths(edges, c[j + 1..], c[..i + 1]);
    p := c[j + 1];
    assert PathBetween(edges, c[j + 1..] + c[..i + 1][1..], p, m);
  }

  /**
   * Requests out of one module may all be checked against the old graph only: added together they keep
   * an acyclic graph acyclic exactly when each passes the check by itself.
   */
  lemma BatchedEdgesKeepAcyclic(edges: Edges, m: Id, ps: seq<Id>)
    requires Acyclic(edges)
    ensures Acyclic(AddEdges(edges, m, ps)) <==> forall p :: p in ps ==> !(m == p || Reaches(edges, p, m))
  {
    ReachesSelf(edges, m);
    forall p | p in ps && (m == p || Reaches(edges, p, m)) ensures !Acyclic(AddEdges(edges, m, ps)) {
      EdgeClosesLoop(edges, m, ps, p);
    }
    if !Acyclic(AddEdges(edges, m, ps)) {
      var c :| IsPath(AddEdges(edges, m, ps), c) && |c| > 1 && c[0] == c[|c| - 1];
      var p := LoopNeedsBadEdge(edges, m, ps, c);
    }
  }

  // ---------- every set of modules has one that needs none of the others ----------

  ghost predicate NeedsOneOf(edges: Edges, pool: set<Id>, x: Id) {
    exists y :: y in Next(edges, x) && y in pool
  }

  lemma {:induction false} WalkInside(edges: Edges, pool: set<Id>, n: nat) returns (p: seq<Id>)
    requires pool != {} && n > 0
    requires forall x {:trigger NeedsOneOf(edges, pool, x)} :: x in pool ==> NeedsOneOf(edges, pool, x)
    ensures |p| == n && IsPath(edges, p) && forall i :: 0 <= i < n ==> p[i] in pool
  {
    if n == 1 {
      var x :| x in pool;
      p := [x];
    } else {
      var q := WalkInside(edges, pool, n - 1);
      assert NeedsOneOf(edges, pool, q[n - 2]);
      var y :| y in Next(edges, q[n - 2]) && y in pool;
      p := q + [y];
    }
  }

  lemma RepeatMakesLoop(edges: Edges, p: seq<Id>, i: nat, j: nat)
    requires IsPath(edges, p) && i < j < |p| && p[i] == p[j]
    ensures !Acyclic(edges)
  {
    var loop := p[i..j + 1];
    assert forall k :: 0 <= k < |loop| ==> loop[k] == p[i + k];
    assert IsPath(edges, loop);
  }

  lemma AcyclicHasSource(edges: Edges, pool: set<Id>) returns (x: Id)
    requires Acyclic(edges) && pool != {}
    ensures x in pool && !NeedsOneOf(edges, pool, x)
  {
    if forall v {:trigger NeedsOneOf(edges, pool, v)} :: v in pool ==> NeedsOneOf(edges, pool, v) {
      var p := WalkInside(edges, pool, |pool| + 1);
      var i, j := Pigeonhole(p, pool);
      RepeatMakesLoop(edges, p, i, j);
      assert false;
    } else {
      x :| x in pool && !NeedsOneOf(edges, pool, x);
    }
  }
}
