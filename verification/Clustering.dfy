/** Union-find over addresses, and the clustering built on it. */
module Clustering {
  import opened Common
  import opened Sorting
  import opened Features
  import opened Links
  import opened Text

  ghost predicate NodeOk(parent: map<string, string>, leader: map<string, string>, depth: map<string, nat>, x: string)
    requires x in parent && leader.Keys == parent.Keys == depth.Keys
  {
    && parent[x] in parent && leader[x] in parent
    && leader[parent[x]] == leader[x] == leader[leader[x]]
    && (parent[x] == x <==> leader[x] == x)
    && (parent[x] != x ==> depth[parent[x]] < depth[x] && depth[leader[x]] < depth[x])
  }

  /** A forest of parent pointers in which leader names the root of every tree; depth shows that climbing ends. */
  ghost predicate Forest(parent: map<string, string>, leader: map<string, string>, depth: map<string, nat>) {
    && leader.Keys == parent.Keys == depth.Keys
    && forall x {:trigger NodeOk(parent, leader, depth, x)} :: x in parent ==> NodeOk(parent, leader, depth, x)
  }

  lemma CompressKeepsForest(parent: map<string, string>, leader: map<string, string>, depth: map<string, nat>,
                            x: string)
    requires Forest(parent, leader, depth) && x in parent
    ensures leader[x] in parent && Forest(parent[x := leader[x]], leader, depth)
  {
    assert NodeOk(parent, leader, depth, x);
    var after := parent[x := leader[x]];
    forall y | y in after ensures NodeOk(after, leader, depth, y) {
      assert NodeOk(parent, leader, depth, y);
    }
  }

  /** The ranks after the tree of b hangs below the root a. */
  ghost function Lowered(leader: map<string, string>, depth: map<string, nat>, a: string, b: string): map<string, nat>
    requires leader.Keys == depth.Keys && a in depth
  {
    map x | x in depth :: if leader[x] == b then depth[x] + depth[a] + 1 else depth[x]
  }

  lemma MergeKeepsForest(parent: map<string, string>, leader: map<string, string>, depth: map<string, nat>, a: string,
                         b: string)
    requires Forest(parent, leader, depth) && a in parent && b in parent && a != b
    requires leader[a] == a && leader[b] == b
    ensures Forest(parent[b := a], Merged(leader, a, b), Lowered(leader, depth, a, b))
  {
    assert NodeOk(parent, leader, depth, a) && NodeOk(parent, leader, depth, b);
    var parent', leader', depth' := parent[b := a], Merged(leader, a, b), Lowered(leader, depth, a, b);
    forall y | y in parent' ensures NodeOk(parent', leader', depth', y) {
      assert NodeOk(parent, leader, depth, y);
    }
  }

  /** The parent pointers alone determine every leader. */
  lemma {:induction false} LeaderIsDetermined(parent: map<string, string>, leader: map<string, string>,
                                              depth: map<string, nat>,
                                              leader': map<string, string>, depth': map<string, nat>, x: string)
    requires Forest(parent, leader, depth) && Forest(parent, leader', depth') && x in parent
    ensures leader[x] == leader'[x]
    decreases depth[x]
  {
    assert NodeOk(parent, leader, depth, x) && NodeOk(parent, leader', depth', x);
    if parent[x] != x {
      LeaderIsDetermined(parent, leader, depth, leader', depth', parent[x]);
    }
  }

  /** The leaders after the groups of a and b become one. */
  function Merged(leader: map<string, string>, a: string, b: string): map<string, string>
    requires a in leader && b in leader
  {
    map x | x in leader :: if leader[x] == leader[b] then leader[a] else leader[x]
  }

  lemma LeaderFacts(parent: map<string, string>, leader: map<string, string>, depth: map<string, nat>, x: string)
    requires Forest(parent, leader, depth) && x in parent
    ensures leader.Keys == parent.Keys && depth.Keys == parent.Keys
    ensures leader[x] in parent && leader[leader[x]] == leader[x]
  {
    assert NodeOk(parent, leader, depth, x);
  }

  lemma LeaderKeys(parent: map<string, string>, leader: map<string, string>, depth: map<string, nat>)
    requires Forest(parent, leader, depth)
    ensures leader.Keys == parent.Keys
  {
  }

  lemma MergedKeys(leader: map<string, string>, a: string, b: string)
    requires a in leader && b in leader
    ensures Merged(leader, a, b).Keys == leader.Keys
  {
  }

  lemma MergedByRoot(leader: map<string, string>, a: string, b: string)
    requires a in leader && b in leader && leader[a] in leader && leader[b] in leader
    requires leader[leader[a]] == leader[a] && leader[leader[b]] == leader[b]
    ensures Merged(leader, a, b) == Merged(leader, leader[a], leader[b])
    ensures leader[a] == leader[b] ==> Merged(leader, a, b) == leader
  {
  }

  class UnionFind {
    const items: seq<string>
    var parent: map<string, string>
    ghost var leader: map<string, string>
    ghost var depth: map<string, nat>

    ghost predicate Valid()
      reads this
    {
      && (forall x :: x in items <==> x in parent)
      && Distinct(items)
      && Forest(parent, leader, depth)
    }

    constructor (items: seq<string>)
      requires Distinct(items)
      ensures Valid() && this.items == items
      ensures leader == map x | x in items :: x
    {
      this.items := items;
      parent := map x | x in items :: x;
      leader := map x | x in items :: x;
      depth := map x | x in items :: 0;
    }

    /** The item's leader. Compressing the path changes no leader. */
    method Find(item: string) returns (root: string)
      requires Valid() && item in parent
      modifies this`parent
      ensures Valid() && root == leader[item]
      ensures parent.Keys == old(parent.Keys)
    {
      root := item;
      while parent[root] != root
        invariant root in parent && leader[root] == leader[item]
        decreases depth[root]
      {
        assert NodeOk(parent, leader, depth, root);
        root := parent[root];
      }
      assert NodeOk(parent, leader, depth, root) && NodeOk(parent, leader, depth, item);

      var at := item;
      while parent[at] != root
        invariant Valid() && at in parent && root in parent && parent.Keys == old(parent.Keys)
        invariant leader[at] == root && leader[root] == root && root == leader[item]
        decreases depth[at]
      {
        assert NodeOk(parent, leader, depth, at);
        CompressKeepsForest(parent, leader, depth, at);
        var next := parent[at];
        parent := parent[at := root];
        at := next;
      }
    }

    /** Merges two groups. */
    method Union(a: string, b: string)
      requires Valid() && a in parent && b in parent
      modifies this
      ensures Valid() && parent.Keys == old(parent.Keys)
      ensures leader == Merged(old(leader), a, b) && leader.Keys == old(leader.Keys)
    {
      hide Forest, NodeOk, Merged, Lowered;
      LeaderFacts(parent, leader, depth, a);
      LeaderFacts(parent, leader, depth, b);
      var rootA := Find(a);
      var rootB := Find(b);
      if rootA != rootB {
        MergeKeepsForest(parent, leader, depth, rootA, rootB);
        parent := parent[rootB := rootA];
        depth := Lowered(leader, depth, rootA, rootB);
      }
      MergedByRoot(leader, a, b);
      MergedKeys(leader, a, b);
      leader := Merged(leader, a, b);
    }

    /** The items grouped by leader, each group sorted. */
    method Groups() returns (groups: seq<seq<string>>)
      requires Valid()
      modifies this`parent
      ensures Valid() && parent.Keys == old(parent.Keys)
      ensures Partition(groups, leader)
    {
      hide Members, Forest, Partition, Grouped, Distinct, SortedGroups;
      var keys: seq<string> := [];
      var out: map<string, seq<string>> := map[];
      GroupedNone(leader);
      var n := 0;
      while n < |items|
        invariant Valid() && n <= |items| && parent.Keys == old(parent.Keys)
        invariant Grouped(keys, out, items[..n], leader)
      {
        var item := items[n];
        LeaderFacts(parent, leader, depth, item);
        var root := Find(item);
        GroupedStep(keys, out, items[..n], item, leader);
        keys := if root in out then keys else keys + [root];
        out := out[root := (if root in out then out[root] else []) + [item]];
        assert items[..n + 1] == items[..n] + [item];
        n := n + 1;
      }
      assert items[..n] == items;
      assert forall x :: x in items <==> x in leader by {
        LeaderKeys(parent, leader, depth);
      }
      GroupedPartition(keys, out, items, leader);
      groups := SortedGroups(keys, out);
    }
  }

  /** The groups, each in the order of text. */
  function SortedGroups(keys: seq<string>, out: map<string, seq<string>>): seq<seq<string>>
    requires forall k :: k in keys ==> k in out
  {
    seq(|keys|, i requires 0 <= i < |keys| => Sort(TextLeq, out[keys[i]]))
  }

  /** The table of groups so far: one entry per leader seen, keys in order of first appearance. */
  ghost predicate Grouped(keys: seq<string>, out: map<string, seq<string>>, seen: seq<string>,
                          leader: map<string, string>)
  {
    && Distinct(keys) && (forall k :: k in keys <==> k in out)
    && (forall k :: k in out ==> out[k] == Members(seen, leader, k) && out[k] != [])
    && (forall x :: x in seen ==> x in leader && leader[x] in out)
  }

  lemma GroupedNone(leader: map<string, string>)
    ensures Grouped([], map[], [], leader)
  {
  }

  lemma GroupedPartition(keys: seq<string>, out: map<string, seq<string>>, items: seq<string>,
                         leader: map<string, string>)
    requires Grouped(keys, out, items, leader) && Distinct(items) && (forall x :: x in items <==> x in leader)
    ensures forall k :: k in keys ==> k in out
    ensures Partition(SortedGroups(keys, out), leader)
  {
    var groups := SortedGroups(keys, out);
    forall i | 0 <= i < |groups| ensures GroupOf(keys[i], groups[i], leader) {
      SortedMembers(items, leader, keys[i]);
    }
    PartitionByLeader(keys, groups, leader);
  }

  lemma GroupedStep(keys: seq<string>, out: map<string, seq<string>>, seen: seq<string>, item: string,
                    leader: map<string, string>)
    requires Grouped(keys, out, seen, leader) && item in leader
    ensures var root := leader[item];
            var keys' := if root in out then keys else keys + [root];
            var out' := out[root := (if root in out then out[root] else []) + [item]];
            Grouped(keys', out', seen + [item], leader)
  {
    var root := leader[item];
    if root !in out {
      NoMembers(seen, leader, root);
    }
    assert (seen + [item])[..|seen|] == seen;
  }

  /** The items led by k, in the order they were added. */
  function Members(seen: seq<string>, leader: map<string, string>, k: string): seq<string> {
    if seen == [] then []
    else
      var last := seen[|seen| - 1];
      Members(seen[..|seen| - 1], leader, k) + (if last in leader && leader[last] == k then [last] else [])
  }

  lemma {:induction false} MembersExact(seen: seq<string>, leader: map<string, string>, k: string)
    ensures forall x :: x in Members(seen, leader, k) <==> x in seen && x in leader && leader[x] == k
    ensures Distinct(seen) ==> Distinct(Members(seen, leader, k))
  {
    if seen != [] {
      var front := seen[..|seen| - 1];
      MembersExact(front, leader, k);
      assert seen == front + [seen[|seen| - 1]];
      if Distinct(seen) {
        assert seen[|seen| - 1] !in front;
      }
    }
  }

  lemma NoMembers(seen: seq<string>, leader: map<string, string>, k: string)
    requires forall i :: 0 <= i < |seen| ==> seen[i] in leader && leader[seen[i]] != k
    ensures Members(seen, leader, k) == []
  {
    MembersExact(seen, leader, k);
    if Members(seen, leader, k) != [] {
      assert Members(seen, leader, k)[0] in Members(seen, leader, k);
    }
  }

  /** group lists exactly the items led by k, once each, sorted. */
  ghost predicate GroupOf(k: string, group: seq<string>, leader: map<string, string>) {
    && group != [] && Distinct(group) && SortedBy(TextLeq, group)
    && forall x :: x in group <==> x in leader && leader[x] == k
  }

  /** The groups partition the items by leader. */
  ghost predicate Partition(groups: seq<seq<string>>, leader: map<string, string>) {
    && (forall i :: 0 <= i < |groups| ==> groups[i] != [] && Distinct(groups[i]) && SortedBy(TextLeq, groups[i]))
    && (forall i, x :: 0 <= i < |groups| && x in groups[i] ==> x in leader)
    && (forall x :: x in leader ==> exists i :: 0 <= i < |groups| && x in groups[i])
    && (forall i, j, x, y :: 0 <= i < |groups| && 0 <= j < |groups| && x in groups[i] && y in groups[j] ==>
          (i == j <==> leader[x] == leader[y]))
  }

  lemma PartitionByLeader(keys: seq<string>, groups: seq<seq<string>>, leader: map<string, string>)
    requires |keys| == |groups| && Distinct(keys)
    requires forall i :: 0 <= i < |keys| ==> GroupOf(keys[i], groups[i], leader)
    requires forall x :: x in leader ==> leader[x] in keys
    ensures Partition(groups, leader)
  {
    forall x | x in leader ensures exists i :: 0 <= i < |groups| && x in groups[i] {
      var i :| 0 <= i < |keys| && keys[i] == leader[x];
      assert GroupOf(keys[i], groups[i], leader);
    }
  }

  lemma TextLeqOrders()
    ensures TotalOrder(TextLeq)
  {
    forall s, t ensures TextLeq(s, t) || TextLeq(t, s) {
      TextTotal(s, t);
    }
    forall s, t, u | TextLeq(s, t) && TextLeq(t, u) ensures TextLeq(s, u) {
      TextTransitive(s, t, u);
    }
  }

  lemma SortedMembers(items: seq<string>, leader: map<string, string>, k: string)
    requires Distinct(items) && (forall x :: x in items <==> x in leader)
    requires Members(items, leader, k) != []
    ensures GroupOf(k, Sort(TextLeq, Members(items, leader, k)), leader)
  {
    var group := Members(items, leader, k);
    MembersExact(items, leader, k);
    TextLeqOrders();
    SortSorted(TextLeq, group);
    SortKeepsDistinct(TextLeq, group);
  }

  // ---------------------------------------------------------------- groups are the closure of the links

  /** Two items have one leader exactly when a chain of edges joins them. */
  ghost predicate LeadersMatch(edges: set<Edge>, leader: map<string, string>) {
    && (forall e :: e in edges ==> e.0 in leader && e.1 in leader)
    && (forall x, y :: x in leader && y in leader ==> (leader[x] == leader[y] <==> Joined(edges, x, y)))
  }

  lemma NoEdges(leader: map<string, string>)
    requires forall x :: x in leader ==> leader[x] == x
    ensures LeadersMatch({}, leader)
  {
    forall x, y | x in leader && y in leader ensures leader[x] == leader[y] <==> Joined({}, x, y) {
      JoinedReflexive({}, x);
      if Joined({}, x, y) {
        var p :| Path({}, p, x, y);
        LeadersAgreeAlong({}, leader, p, x, y);
      }
    }
  }

  lemma MergedSoundness(edges: set<Edge>, leader: map<string, string>, a: string, b: string, x: string, y: string)
    requires LeadersMatch(edges, leader) && a in leader && b in leader && x in leader && y in leader
    requires leader[x] == leader[b] && leader[y] == leader[a]
    ensures Joined(edges + {(a, b)}, x, y)
  {
    var more := edges + {(a, b)};
    JoinedMonotone(edges, more, x, b);
    JoinedMonotone(edges, more, a, y);
    JoinedByEdge(more, b, a);
    JoinedTransitive(more, x, b, a);
    JoinedTransitive(more, x, a, y);
  }

  /** Merging two groups keeps the match when the pair becomes an edge. */
  lemma MergedMatches(edges: set<Edge>, leader: map<string, string>, a: string, b: string)
    requires LeadersMatch(edges, leader) && a in leader && b in leader
    ensures LeadersMatch(edges + {(a, b)}, Merged(leader, a, b))
  {
    var more, merged := edges + {(a, b)}, Merged(leader, a, b);
    forall x, y | x in merged && y in merged ensures merged[x] == merged[y] <==> Joined(more, x, y) {
      if merged[x] == merged[y] {
        if leader[x] == leader[y] {
          JoinedMonotone(edges, more, x, y);
        } else if leader[x] == leader[b] {
          MergedSoundness(edges, leader, a, b, x, y);
        } else {
          MergedSoundness(edges, leader, a, b, y, x);
          JoinedSymmetric(more, y, x);
        }
      }
      if Joined(more, x, y) {
        var p :| Path(more, p, x, y);
        forall u, v | Adjacent(more, u, v) ensures u in merged && v in merged && merged[u] == merged[v] {
          if Adjacent(edges, u, v) {
            JoinedByEdge(edges, u, v);
          }
        }
        LeadersAgreeAlong(more, merged, p, x, y);
      }
    }
  }

  lemma SameAdjacencySameMatch(edges: set<Edge>, edges': set<Edge>, leader: map<string, string>)
    requires LeadersMatch(edges, leader)
    requires forall x, y :: Adjacent(edges, x, y) <==> Adjacent(edges', x, y)
    ensures forall x, y :: x in leader && y in leader ==> (leader[x] == leader[y] <==> Joined(edges', x, y))
  {
    forall x, y | x in leader && y in leader ensures leader[x] == leader[y] <==> Joined(edges', x, y) {
      if Joined(edges, x, y) {
        JoinedMonotone(edges, edges', x, y);
      }
      if Joined(edges', x, y) {
        JoinedMonotone(edges', edges, x, y);
      }
    }
  }

  // ---------------------------------------------------------------- clustering

  type Profiles = map<string, IPProfile>

  predicate LinkedIn(profiles: Profiles, minShared: int, windowSeconds: int, x: string, y: string) {
    x in profiles && y in profiles && x != y && Related(profiles[x], profiles[y], minShared, windowSeconds)
  }

  /** Every pairwise link between the addresses. */
  ghost function LinkGraph(profiles: Profiles, minShared: int, windowSeconds: int): set<Edge> {
    set x, y | x in profiles && y in profiles && LinkedIn(profiles, minShared, windowSeconds, x, y) :: (x, y)
  }

  datatype Cluster = Cluster(members: seq<string>, traits: set<Trait>)

  /** t is a trait of some link that x takes part in. */
  ghost predicate LinkTrait(profiles: Profiles, edges: set<Edge>, windowSeconds: int, x: string, t: Trait) {
    exists y :: y in profiles && x in profiles && Adjacent(edges, x, y)
      && Agree(profiles[x], profiles[y], windowSeconds, t)
  }

  /** The groups partition the addresses, and two addresses share a group exactly when a chain of links joins them. */
  ghost predicate Classes(groups: seq<seq<string>>, addresses: set<string>, graph: set<Edge>) {
    && (forall i :: 0 <= i < |groups| ==> groups[i] != [] && Distinct(groups[i]) && SortedBy(TextLeq, groups[i]))
    && (forall i, x :: 0 <= i < |groups| && x in groups[i] ==> x in addresses)
    && (forall x :: x in addresses ==> exists i :: 0 <= i < |groups| && x in groups[i])
    && (forall i, j, x, y :: 0 <= i < |groups| && 0 <= j < |groups| && x in groups[i] && y in groups[j] ==>
          (i == j <==> Joined(graph, x, y)))
  }

  function MemberLists(clusters: seq<Cluster>): seq<seq<string>> {
    seq(|clusters|, i requires 0 <= i < |clusters| => clusters[i].members)
  }

  /** The clusters are the classes of addresses joined by chains of links, each with the traits of its links. */
  ghost predicate AreClusters(clusters: seq<Cluster>, profiles: Profiles, minShared: int, windowSeconds: int) {
    var graph := LinkGraph(profiles, minShared, windowSeconds);
    && Classes(MemberLists(clusters), profiles.Keys, graph)
    && forall i, t :: 0 <= i < |clusters| ==>
         (t in clusters[i].traits <==>
            exists x :: x in clusters[i].members && LinkTrait(profiles, graph, windowSeconds, x, t))
  }

  ghost predicate Lists(items: seq<string>, keys: set<string>) {
    Distinct(items) && forall x :: x in items <==> x in keys
  }

  lemma ListsKeys(items: seq<string>, keys: set<string>)
    requires Lists(items, keys)
    ensures Distinct(items) && (set x | x in items) == keys
  {
  }

  lemma ListedPair(items: seq<string>, keys: set<string>, i: int, j: int)
    requires Lists(items, keys) && 0 <= i < j < |items|
    ensures items[i] in keys && items[j] in keys && items[i] != items[j]
  {
  }

  /** sorted(profiles) */
  method SortedKeys(keys: set<string>) returns (sorted: seq<string>)
    ensures Distinct(sorted) && SortedBy(TextLeq, sorted)
    ensures forall x :: x in sorted <==> x in keys
  {
    var todo := keys;
    var listed: seq<string> := [];
    while todo != {}
      invariant todo <= keys && Distinct(listed)
      invariant forall x :: x in listed <==> x in keys - todo
      decreases todo
    {
      var x :| x in todo;
      assert x !in listed;
      listed := listed + [x];
      todo := todo - {x};
    }
    TextLeqOrders();
    SortSorted(TextLeq, listed);
    SortKeepsDistinct(TextLeq, listed);
    sorted := Sort(TextLeq, listed);
  }

  /** The pairs compared so far: all with an earlier first index, and those with the same one up to j. */
  predicate Compared(p: int, q: int, i: int, j: int) {
    p < q && (p < i || (p == i && q < j))
  }

  ghost predicate EdgesUpTo(edges: set<Edge>, profiles: Profiles, minShared: int, windowSeconds: int, ips: seq<string>,
                            i: int, j: int)
  {
    && (forall e :: e in edges ==> LinkedIn(profiles, minShared, windowSeconds, e.0, e.1))
    && (forall p, q ::
          && 0 <= p < |ips| && 0 <= q < |ips| && Compared(p, q, i, j)
          && LinkedIn(profiles, minShared, windowSeconds, ips[p], ips[q])
          ==> (ips[p], ips[q]) in edges)
  }

  ghost predicate TraitsUpTo(seen: map<string, set<Trait>>, profiles: Profiles, edges: set<Edge>, windowSeconds: int) {
    && seen.Keys == profiles.Keys
    && forall x, t :: x in seen ==> (t in seen[x] <==> LinkTrait(profiles, edges, windowSeconds, x, t))
  }

  function TraitSet(traits: seq<Trait>): set<Trait> { set t | t in traits }

  lemma TraitsStep(seen: map<string, set<Trait>>, profiles: Profiles, edges: set<Edge>, windowSeconds: int, a: string,
                   b: string)
    requires TraitsUpTo(seen, profiles, edges, windowSeconds) && a in profiles && b in profiles && a != b
    ensures var traits := TraitSet(SharedTraits(profiles[a], profiles[b], windowSeconds));
            TraitsUpTo(seen[a := seen[a] + traits][b := seen[b] + traits], profiles, edges + {(a, b)}, windowSeconds)
  {
    hide SharedTraits, Agree;
    forall t ensures Agree(profiles[a], profiles[b], windowSeconds, t) <==>
      Agree(profiles[b], profiles[a], windowSeconds, t)
    {
      AgreeSymmetric(profiles[a], profiles[b], windowSeconds, t);
    }
    forall t ensures t in SharedTraits(profiles[a], profiles[b], windowSeconds) <==>
      Agree(profiles[a], profiles[b], windowSeconds, t)
    {
      SharedExactly(profiles[a], profiles[b], windowSeconds, t);
    }
    var traits := TraitSet(SharedTraits(profiles[a], profiles[b], windowSeconds));
    var more, seen' := edges + {(a, b)}, seen[a := seen[a] + traits][b := seen[b] + traits];
    forall x, t | x in seen' ensures t in seen'[x] <==> LinkTrait(profiles, more, windowSeconds, x, t) {
      if LinkTrait(profiles, edges, windowSeconds, x, t) {
        var y :| y in profiles && Adjacent(edges, x, y) && Agree(profiles[x], profiles[y], windowSeconds, t);
        assert Adjacent(more, x, y);
      }
      if (x == a || x == b) && t in traits {
        assert Adjacent(more, x, if x == a then b else a);
      }
    }
  }

  lemma AllCompared(edges: set<Edge>, profiles: Profiles, minShared: int, windowSeconds: int, ips: seq<string>)
    requires forall x :: x in ips <==> x in profiles
    requires EdgesUpTo(edges, profiles, minShared, windowSeconds, ips, |ips|, 0)
    ensures forall x, y :: Adjacent(edges, x, y) <==> Adjacent(LinkGraph(profiles, minShared, windowSeconds), x, y)
  {
    hide Related;
    var graph := LinkGraph(profiles, minShared, windowSeconds);
    forall x, y ensures Adjacent(edges, x, y) <==> Adjacent(graph, x, y) {
      LinkedBothWays(profiles, minShared, windowSeconds, x, y);
      if Adjacent(graph, x, y) {
        var p :| 0 <= p < |ips| && ips[p] == x;
        var q :| 0 <= q < |ips| && ips[q] == y;
        assert Compared(p, q, |ips|, 0) || Compared(q, p, |ips|, 0);
      }
    }
  }

  lemma LinkedBothWays(profiles: Profiles, minShared: int, windowSeconds: int, x: string, y: string)
    ensures LinkedIn(profiles, minShared, windowSeconds, x, y) <==> LinkedIn(profiles, minShared, windowSeconds, y, x)
  {
    if x in profiles && y in profiles {
      RelatedSymmetric(profiles[x], profiles[y], minShared, windowSeconds);
    }
    hide Related;
  }

  lemma NothingCompared(profiles: Profiles, minShared: int, windowSeconds: int, ips: seq<string>,
                        seen: map<string, set<Trait>>)
    requires seen == map x | x in profiles :: {}
    ensures EdgesUpTo({}, profiles, minShared, windowSeconds, ips, 0, 0)
    ensures TraitsUpTo(seen, profiles, {}, windowSeconds)
  {
  }

  lemma NextRow(edges: set<Edge>, profiles: Profiles, minShared: int, windowSeconds: int, ips: seq<string>, i: int)
    requires EdgesUpTo(edges, profiles, minShared, windowSeconds, ips, i, 0)
    ensures EdgesUpTo(edges, profiles, minShared, windowSeconds, ips, i, i + 1)
  {
  }

  ghost function WithPair(edges: set<Edge>, profiles: Profiles, minShared: int, windowSeconds: int, a: string,
                          b: string): set<Edge>
  {
    if LinkedIn(profiles, minShared, windowSeconds, a, b) then edges + {(a, b)} else edges
  }

  lemma NextPair(edges: set<Edge>, profiles: Profiles, minShared: int, windowSeconds: int, ips: seq<string>, i: int,
                 j: int)
    requires 0 <= i < j < |ips|
    requires EdgesUpTo(edges, profiles, minShared, windowSeconds, ips, i, j)
    ensures EdgesUpTo(WithPair(edges, profiles, minShared, windowSeconds, ips[i], ips[j]), profiles, minShared,
                      windowSeconds, ips, i, j + 1)
  {
    hide LinkedIn;
  }

  lemma RowDone(edges: set<Edge>, profiles: Profiles, minShared: int, windowSeconds: int, ips: seq<string>, i: int)
    requires EdgesUpTo(edges, profiles, minShared, windowSeconds, ips, i, |ips|)
    ensures EdgesUpTo(edges, profiles, minShared, windowSeconds, ips, i + 1, 0)
  {
    hide LinkedIn;
  }

  /** The union of what the members were seen to share. */
  function TraitsOfAll(members: seq<string>, seen: map<string, set<Trait>>): set<Trait> {
    set ip, t | ip in members && ip in seen && t in seen[ip] :: t
  }

  lemma TraitsOfNone(members: seq<string>, seen: map<string, set<Trait>>)
    ensures TraitsOfAll(members[..0], seen) == {}
  {
  }

  lemma TraitsOfOneMore(members: seq<string>, m: nat, seen: map<string, set<Trait>>)
    requires m < |members| && members[m] in seen
    ensures TraitsOfAll(members[..m + 1], seen) == TraitsOfAll(members[..m], seen) + seen[members[m]]
  {
    assert members[..m + 1] == members[..m] + [members[m]];
  }

  lemma PartitionMembers(groups: seq<seq<string>>, leader: map<string, string>)
    requires Partition(groups, leader)
    ensures forall i, x :: 0 <= i < |groups| && x in groups[i] ==> x in leader
  {
  }

  lemma PartitionIsClasses(groups: seq<seq<string>>, leader: map<string, string>, graph: set<Edge>)
    requires Partition(groups, leader)
    requires forall x, y :: x in leader && y in leader ==> (leader[x] == leader[y] <==> Joined(graph, x, y))
    ensures Classes(groups, leader.Keys, graph)
  {
    hide Joined, TextLeq;
  }

  lemma MemberTraits(members: seq<string>, seen: map<string, set<Trait>>, profiles: Profiles, edges: set<Edge>,
                     graph: set<Edge>,
                     windowSeconds: int, t: Trait)
    requires TraitsUpTo(seen, profiles, edges, windowSeconds)
    requires forall x :: x in members ==> x in profiles
    requires forall x, y :: Adjacent(edges, x, y) <==> Adjacent(graph, x, y)
    ensures t in TraitsOfAll(members, seen) <==>
            exists x :: x in members && LinkTrait(profiles, graph, windowSeconds, x, t)
  {
    hide Agree;
    forall x | x in members ensures t in seen[x] <==> LinkTrait(profiles, graph, windowSeconds, x, t) {
      assert LinkTrait(profiles, edges, windowSeconds, x, t) <==> LinkTrait(profiles, graph, windowSeconds, x, t);
    }
  }

  lemma GroupsAreClusters(edges: set<Edge>, leader: map<string, string>, profiles: Profiles, minShared: int,
                          windowSeconds: int,
                          groups: seq<seq<string>>, seen: map<string, set<Trait>>, clusters: seq<Cluster>)
    requires leader.Keys == profiles.Keys && LeadersMatch(edges, leader)
             && TraitsUpTo(seen, profiles, edges, windowSeconds)
    requires forall x, y :: Adjacent(edges, x, y) <==> Adjacent(LinkGraph(profiles, minShared, windowSeconds), x, y)
    requires Partition(groups, leader)
    requires |clusters| == |groups| && forall i :: 0 <= i < |groups| ==>
               clusters[i] == Cluster(groups[i], TraitsOfAll(groups[i], seen))
    ensures AreClusters(clusters, profiles, minShared, windowSeconds)
  {
    hide Joined, TextLeq, Distinct, LinkGraph, LeadersMatch, LinkTrait, TraitsOfAll, TraitsUpTo,
      Partition, Classes;
    var graph := LinkGraph(profiles, minShared, windowSeconds);
    SameAdjacencySameMatch(edges, graph, leader);
    PartitionIsClasses(groups, leader, graph);
    PartitionMembers(groups, leader);
    assert MemberLists(clusters) == groups;
    forall i, t | 0 <= i < |clusters|
      ensures t in clusters[i].traits <==>
              exists x :: x in clusters[i].members && LinkTrait(profiles, graph, windowSeconds, x, t)
    {
      MemberTraits(groups[i], seen, profiles, edges, graph, windowSeconds, t);
    }
  }

  /** Compares one pair, and unites it when it is linked. */
  method ComparePair(uf: UnionFind, profiles: Profiles, minShared: int, windowSeconds: int, a: string, b: string,
                     seen: map<string, set<Trait>>, ghost edges: set<Edge>)
    returns (seen': map<string, set<Trait>>, ghost edges': set<Edge>)
    requires a in profiles && b in profiles && a != b
    requires uf.Valid() && uf.leader.Keys == profiles.Keys && uf.parent.Keys == profiles.Keys
             && LeadersMatch(edges, uf.leader)
    requires seen.Keys == profiles.Keys && TraitsUpTo(seen, profiles, edges, windowSeconds)
    modifies uf
    ensures uf.Valid() && uf.leader.Keys == profiles.Keys && uf.parent.Keys == profiles.Keys
            && LeadersMatch(edges', uf.leader)
    ensures seen'.Keys == profiles.Keys && TraitsUpTo(seen', profiles, edges', windowSeconds)
    ensures edges' == WithPair(edges, profiles, minShared, windowSeconds, a, b)
  {
    hide Forest, LeadersMatch, TraitsUpTo, SharedTraits, IdentityCount, Merged, TraitSet, Related;
    LinkedExactly(profiles[a], profiles[b], minShared, windowSeconds);
    seen', edges' := seen, edges;
    var traits := SharedTraits(profiles[a], profiles[b], windowSeconds);
    if Timing in traits && IdentityCount(traits) >= 2 && |traits| >= minShared {
      MergedMatches(edges, uf.leader, a, b);
      TraitsStep(seen, profiles, edges, windowSeconds, a, b);
      uf.Union(a, b);
      seen' := seen[a := seen[a] + TraitSet(traits)][b := seen[b] + TraitSet(traits)];
      edges' := edges + {(a, b)};
    }
  }

  /** What the comparison has established when it reaches the pair (i, j). */
  ghost predicate Progress(uf: UnionFind, profiles: Profiles, minShared: int, windowSeconds: int, ips: seq<string>,
                           seen: map<string, set<Trait>>, edges: set<Edge>, i: int, j: int)
    reads uf
  {
    && uf.Valid() && uf.leader.Keys == profiles.Keys && uf.parent.Keys == profiles.Keys
    && LeadersMatch(edges, uf.leader)
    && EdgesUpTo(edges, profiles, minShared, windowSeconds, ips, i, j)
    && seen.Keys == profiles.Keys && TraitsUpTo(seen, profiles, edges, windowSeconds)
  }

  /** Compares ips[i] with every later address. */
  method LinkRow(uf: UnionFind, profiles: Profiles, minShared: int, windowSeconds: int, ips: seq<string>, i: int,
                 seen: map<string, set<Trait>>, ghost edges: set<Edge>)
    returns (seen': map<string, set<Trait>>, ghost edges': set<Edge>)
    requires Lists(ips, profiles.Keys) && 0 <= i < |ips|
    requires Progress(uf, profiles, minShared, windowSeconds, ips, seen, edges, i, 0)
    modifies uf
    ensures Progress(uf, profiles, minShared, windowSeconds, ips, seen', edges', i + 1, 0)
  {
    hide Forest, LeadersMatch, EdgesUpTo, TraitsUpTo, WithPair, Lists, Distinct;
    seen', edges' := seen, edges;
    NextRow(edges, profiles, minShared, windowSeconds, ips, i);
    var j := i + 1;
    while j < |ips|
      invariant i + 1 <= j <= |ips|
      invariant Progress(uf, profiles, minShared, windowSeconds, ips, seen', edges', i, j)
    {
      ListedPair(ips, profiles.Keys, i, j);
      NextPair(edges', profiles, minShared, windowSeconds, ips, i, j);
      seen', edges' := ComparePair(uf, profiles, minShared, windowSeconds, ips[i], ips[j], seen', edges');
      j := j + 1;
    }
    RowDone(edges', profiles, minShared, windowSeconds, ips, i);
  }

  /** Before any comparison every address is its own group. */
  method StartGroups(profiles: Profiles, minShared: int, windowSeconds: int, ips: seq<string>)
    returns (uf: UnionFind, seen: map<string, set<Trait>>)
    requires Lists(ips, profiles.Keys)
    ensures fresh(uf) && Progress(uf, profiles, minShared, windowSeconds, ips, seen, {}, 0, 0)
  {
    hide Forest, LeadersMatch, EdgesUpTo, TraitsUpTo, Lists, Distinct;
    ListsKeys(ips, profiles.Keys);
    uf := new UnionFind(ips);
    seen := map x | x in profiles :: {};
    NoEdges(uf.leader);
    NothingCompared(profiles, minShared, windowSeconds, ips, seen);
  }

  /** Compares every pair and unites the linked ones. */
  method LinkPairs(profiles: Profiles, minShared: int, windowSeconds: int, ips: seq<string>)
    returns (uf: UnionFind, seen: map<string, set<Trait>>, ghost edges: set<Edge>)
    requires Lists(ips, profiles.Keys)
    ensures fresh(uf) && Progress(uf, profiles, minShared, windowSeconds, ips, seen, edges, |ips|, 0)
  {
    hide Progress, Lists;
    uf, seen := StartGroups(profiles, minShared, windowSeconds, ips);
    edges := {};
    var i := 0;
    while i < |ips|
      invariant 0 <= i <= |ips| && fresh(uf)
      invariant Progress(uf, profiles, minShared, windowSeconds, ips, seen, edges, i, 0)
    {
      seen, edges := LinkRow(uf, profiles, minShared, windowSeconds, ips, i, seen, edges);
      i := i + 1;
    }
  }

  /** Groups addresses into campaigns. */
  method ClusterProfiles(profiles: Profiles, minShared: int := 2, windowSeconds: int := 300)
    returns (clusters: seq<Cluster>)
    ensures AreClusters(clusters, profiles, minShared, windowSeconds)
  {
    hide Forest, LeadersMatch, EdgesUpTo, TraitsUpTo, AreClusters, Partition, LinkGraph, TraitsOfAll;
    var ips := SortedKeys(profiles.Keys);
    var uf, seen, edges := LinkPairs(profiles, minShared, windowSeconds, ips);
    AllCompared(edges, profiles, minShared, windowSeconds, ips);
    var groups := uf.Groups();
    ghost var leader := uf.leader;
    PartitionMembers(groups, leader);
    clusters := [];
    var n := 0;
    while n < |groups|
      invariant 0 <= n <= |groups| && |clusters| == n
      invariant forall k :: 0 <= k < n ==> clusters[k] == Cluster(groups[k], TraitsOfAll(groups[k], seen))
    {
      var traits: set<Trait> := {};
      var m := 0;
      assert TraitsOfAll(groups[n][..0], seen) == {} by {
        TraitsOfNone(groups[n], seen);
      }
      while m < |groups[n]|
        invariant 0 <= m <= |groups[n]|
        invariant traits == TraitsOfAll(groups[n][..m], seen)
      {
        TraitsOfOneMore(groups[n], m, seen);
        traits := traits + seen[groups[n][m]];
        m := m + 1;
      }
      assert groups[n][..m] == groups[n];
      clusters := clusters + [Cluster(groups[n], traits)];
      n := n + 1;
    }
    GroupsAreClusters(edges, leader, profiles, minShared, windowSeconds, groups, seen, clusters);
  }
}
