/** Undirected reachability over a set of edges. */
module Links {
  type Edge = (string, string)

  predicate Adjacent(edges: set<Edge>, x: string, y: string) {
    (x, y) in edges || (y, x) in edges
  }

  ghost predicate Path(edges: set<Edge>, p: seq<string>, x: string, y: string) {
    && p != [] && p[0] == x && p[|p| - 1] == y
    && forall i :: 0 <= i < |p| - 1 ==> Adjacent(edges, p[i], p[i + 1])
  }

  /** x and y are joined by a chain of edges. */
  ghost predicate Joined(edges: set<Edge>, x: string, y: string) {
    exists p :: Path(edges, p, x, y)
  }

  lemma JoinedReflexive(edges: set<Edge>, x: string)
    ensures Joined(edges, x, x)
  {
    assert Path(edges, [x], x, x);
  }

  lemma JoinedByEdge(edges: set<Edge>, x: string, y: string)
    requires Adjacent(edges, x, y)
    ensures Joined(edges, x, y)
  {
    assert Path(edges, [x, y], x, y);
  }

  lemma JoinedTransitive(edges: set<Edge>, x: string, y: string, z: string)
    requires Joined(edges, x, y) && Joined(edges, y, z)
    ensures Joined(edges, x, z)
  {
    var p :| Path(edges, p, x, y);
    var q :| Path(edges, q, y, z);
    var r := p + q[1..];
    forall i | 0 <= i < |r| - 1 ensures Adjacent(edges, r[i], r[i + 1]) {
      if i >= |p| - 1 {
        assert r[i] == q[i - |p| + 1] && r[i + 1] == q[i - |p| + 2];
      }
    }
    assert Path(edges, r, x, z);
  }

  lemma JoinedSymmetric(edges: set<Edge>, x: string, y: string)
    requires Joined(edges, x, y)
    ensures Joined(edges, y, x)
  {
    var p :| Path(edges, p, x, y);
    var r := seq(|p|, i requires 0 <= i < |p| => p[|p| - 1 - i]);
    forall i | 0 <= i < |r| - 1 ensures Adjacent(edges, r[i], r[i + 1]) {
      assert Adjacent(edges, p[|p| - 2 - i], p[|p| - 2 - i + 1]);
    }
    assert Path(edges, r, y, x);
  }

  lemma JoinedMonotone(edges: set<Edge>, more: set<Edge>, x: string, y: string)
    requires forall a, b :: Adjacent(edges, a, b) ==> Adjacent(more, a, b)
    requires Joined(edges, x, y)
    ensures Joined(more, x, y)
  {
    var p :| Path(edges, p, x, y);
    assert Path(more, p, x, y);
  }

  /** Any assignment of leaders that agrees across every edge agrees along every chain. */
  lemma {:induction false} LeadersAgreeAlong(edges: set<Edge>, leader: map<string, string>, p: seq<string>, x: string,
                                             y: string)
    requires Path(edges, p, x, y) && x in leader
    requires forall a, b :: Adjacent(edges, a, b) ==> a in leader && b in leader && leader[a] == leader[b]
    ensures y in leader && leader[x] == leader[y]
  {
    if |p| > 1 {
      assert Adjacent(edges, p[0], p[1]);
      forall i | 0 <= i < |p[1..]| - 1 ensures Adjacent(edges, p[1..][i], p[1..][i + 1]) {
        assert Adjacent(edges, p[i + 1], p[i + 1 + 1]);
      }
      LeadersAgreeAlong(edges, leader, p[1..], p[1], y);
    }
  }
}
