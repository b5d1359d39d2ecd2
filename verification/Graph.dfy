/** The dependency graph between posts: walks, cycles, and the recursive
    reachability query that guards every new edge. */
module Graph {
  type Id = string
  type Edge = (Id, Id)

  /** w lists at least two posts, each one depending directly on the next. */
  ghost predicate Walk(edges: set<Edge>, w: seq<Id>) {
    |w| >= 2 && forall i | 0 <= i < |w| - 1 :: (w[i], w[i + 1]) in edges
  }

  ghost predicate Reaches(edges: set<Edge>, a: Id, b: Id) {
    exists w :: Walk(edges, w) && w[0] == a && w[|w| - 1] == b
  }

  ghost predicate Acyclic(edges: set<Edge>) {
    forall x :: !Reaches(edges, x, x)
  }

  lemma ReachesOneStep(edges: set<Edge>, a: Id, b: Id)
    requires (a, b) in edges
    ensures Reaches(edges, a, b)
  {
    assert Walk(edges, [a, b]);
  }

  lemma ReachesTransitive(edges: set<Edge>, a: Id, b: Id, c: Id)
    requires Reaches(edges, a, b) && Reaches(edges, b, c)
    ensures Reaches(edges, a, c)
  {
    var v :| Walk(edges, v) && v[0] == a && v[|v| - 1] == b;
    var w :| Walk(edges, w) && w[0] == b && w[|w| - 1] == c;
    var joined := v + w[1..];
    assert forall i | 0 <= i < |joined| - 1 :: (joined[i], joined[i + 1]) in edges by {
      forall i | 0 <= i < |joined| - 1
        ensures (joined[i], joined[i + 1]) in edges
      {
        if i >= |v| - 1 {
          assert joined[i] == w[i - |v| + 1] && joined[i + 1] == w[i - |v| + 2];
        }
      }
    }
    assert Walk(edges, joined);
  }

  lemma ReachesMonotone(edges: set<Edge>, more: set<Edge>, a: Id, b: Id)
    requires edges <= more && Reaches(edges, a, b)
    ensures Reaches(more, a, b)
  {
    var w :| Walk(edges, w) && w[0] == a && w[|w| - 1] == b;
    assert Walk(more, w);
  }

  /** Removing edges, as a post deletion does, cannot create a cycle. */
  lemma AcyclicSubset(edges: set<Edge>, fewer: set<Edge>)
    requires Acyclic(edges) && fewer <= edges
    ensures Acyclic(fewer)
  {
    forall x ensures !Reaches(fewer, x, x) {
      if Reaches(fewer, x, x) { ReachesMonotone(fewer, edges, x, x); }
    }
  }

  /** A walk in the extended graph either avoids the new edge, or reaches its
      source and continues from its target. */
  lemma {:induction false} WalkThroughNewEdge(edges: set<Edge>, s: Id, d: Id, w: seq<Id>)
    requires Walk(edges + {(s, d)}, w)
    ensures
      var a, b := w[0], w[|w| - 1];
      || Reaches(edges, a, b)
      || ((a == s || Reaches(edges, a, s)) && (b == d || Reaches(edges, d, b)))
    decreases |w|
  {
    var a, y, b := w[0], w[1], w[|w| - 1];
    assert (w[0], w[0 + 1]) in edges + {(s, d)};
    if |w| == 2 {
      if (a, y) in edges { ReachesOneStep(edges, a, y); }
    } else {
      var rest := w[1..];
      assert Walk(edges + {(s, d)}, rest) by {
        forall i | 0 <= i < |rest| - 1 ensures (rest[i], rest[i + 1]) in edges + {(s, d)} {
          assert rest[i] == w[i + 1] && rest[i + 1] == w[i + 2];
          assert (w[i + 1], w[(i + 1) + 1]) in edges + {(s, d)};
        }
      }
      WalkThroughNewEdge(edges, s, d, rest);
      if (a, y) in edges {
        ReachesOneStep(edges, a, y);
        if Reaches(edges, y, b) {
          ReachesTransitive(edges, a, y, b);
        } else if y != s {
          ReachesTransitive(edges, a, y, s);
        }
      }
    }
  }

  /** On an acyclic graph the reachability test rejects an edge between two
      different posts exactly when that edge would close a cycle. */
  lemma CycleCheckExact(edges: set<Edge>, s: Id, d: Id)
    requires Acyclic(edges) && s != d
    ensures Acyclic(edges + {(s, d)}) <==> !Reaches(edges, d, s)
  {
    var more := edges + {(s, d)};
    if Reaches(edges, d, s) {
      ReachesMonotone(edges, more, d, s);
      ReachesOneStep(more, s, d);
      ReachesTransitive(more, s, d, s);
    } else {
      forall x ensures !Reaches(more, x, x) {
        if Reaches(more, x, x) {
          var w :| Walk(more, w) && w[0] == x && w[|w| - 1] == x;
          WalkThroughNewEdge(edges, s, d, w);
          assert !Reaches(edges, x, x);
          if x != s && x != d { ReachesTransitive(edges, d, x, s); }
          assert false;
        }
      }
    }
  }

  /** Every post on a walk from start stays inside a set that holds start's
      successors and is closed under dependency. */
  lemma {:induction false} ClosedHoldsWalk(edges: set<Edge>, start: Id, reach: set<Id>, w: seq<Id>)
    requires Walk(edges, w) && w[0] == start
    requires forall e | e in edges && e.0 == start :: e.1 in reach
    requires forall e | e in edges && e.0 in reach :: e.1 in reach
    ensures w[|w| - 1] in reach
    decreases |w|
  {
    var last := |w| - 2;
    assert (w[last], w[last + 1]) in edges;
    if |w| > 2 {
      var front := w[..|w| - 1];
      assert Walk(edges, front) by {
        forall i | 0 <= i < |front| - 1 ensures (front[i], front[i + 1]) in edges {
          assert (w[i], w[i + 1]) in edges;
        }
      }
      ClosedHoldsWalk(edges, start, reach, front);
      assert front[|front| - 1] == w[last];
    }
  }

  /** The recursive common table expression: reach starts from the direct
      dependencies of `start` and grows by UNION, so each id is expanded once.
      Returns the number of rows of reach equal to target. */
  method CountReach(edges: set<Edge>, start: Id, target: Id) returns (count: nat)
    ensures count == if Reaches(edges, start, target) then 1 else 0
  {
    var targets := set e | e in edges :: e.1;
    var reach := set e | e in edges && e.0 == start :: e.1;
    var queue := reach;
    forall x | x in reach ensures Reaches(edges, start, x) {
      ReachesOneStep(edges, start, x);
    }
    while queue != {}
      invariant queue <= reach <= targets
      invariant forall e | e in edges && e.0 == start :: e.1 in reach
      invariant forall e | e in edges && e.0 in reach - queue :: e.1 in reach
      invariant forall x | x in reach :: Reaches(edges, start, x)
      decreases targets - reach, queue
    {
      var r :| r in queue;
      var found := (set e | e in edges && e.0 == r :: e.1) - reach;
      forall x | x in found ensures Reaches(edges, start, x) {
        ReachesOneStep(edges, r, x);
        ReachesTransitive(edges, start, r, x);
      }
      ghost var before := targets - reach;
      reach := reach + found;
      queue := queue - {r} + found;
      if found != {} {
        var x :| x in found;
        assert x in before && x !in targets - reach;
      }
    }
    if Reaches(edges, start, target) {
      var w :| Walk(edges, w) && w[0] == start && w[|w| - 1] == target;
      ClosedHoldsWalk(edges, start, reach, w);
    }
    count := if target in reach then 1 else 0;
  }
}
